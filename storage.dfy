/** The job storage layer: the local record store kept under the
    `localStorage` keys `jobs` and `jobFilter`, and the coordinator that
    tries the remote REST API first and falls back to the local store.

    The remote call itself is not modelled: each operation takes the
    `Response` that the call would produce and returns the `Request` it
    sends, or `None` when remote storage is off and nothing is sent. */
module Storage {
  import opened Wrappers
  import opened WebStorage
  import opened Types
  import opened Sequences
  import opened JobFilters

  // ---------------------------------------------------------------------
  // Remote configuration and the remote call

  /** Whether a MongoDB URI is configured, and the API base URL. */
  datatype MongoDBConfig = MongoDBConfig(enabled: bool, apiUrl: string)

  /** Reads the two build-time variables; an unset or empty URI disables
      remote storage, an unset API URL reads as the empty string. */
  function GetMongoDBConfig(mongoUri: Option<string>, apiUrl: Option<string>): (c: MongoDBConfig)
    ensures c.enabled <==> mongoUri.Some? && mongoUri.value != ""
    ensures apiUrl.Some? ==> c.apiUrl == apiUrl.value
    ensures apiUrl.None? ==> c.apiUrl == ""
  {
    MongoDBConfig(mongoUri.Some? && mongoUri.value != "", apiUrl.GetOr(""))
  }

  /** Remote storage is tried only when enabled and given a base URL. */
  predicate RemoteEnabled(c: MongoDBConfig)
  {
    c.enabled && c.apiUrl != ""
  }

  /** What a remote call yields: an OK response with its parsed body, or a
      failure (network error, any non-OK status including 404, or a body that
      does not parse). */
  datatype Response<T> = Ok(value: T) | Fail

  datatype Verb = Get | Post | Put | Delete

  /** One HTTP request to the REST API. */
  datatype Request = Request(verb: Verb, url: string, body: Option<Job>)

  function CollectionUrl(c: MongoDBConfig): string
  {
    c.apiUrl + "/applications"
  }

  function ResourceUrl(c: MongoDBConfig, id: string): string
  {
    c.apiUrl + "/applications/" + id
  }

  /** The remote attempt was made and succeeded; otherwise the local path
      runs. */
  predicate RemoteSucceeded<T>(c: MongoDBConfig, response: Response<T>)
  {
    RemoteEnabled(c) && response.Ok?
  }

  // ---------------------------------------------------------------------
  // Records

  /** The fields a caller supplies to create a record: everything but `id`
      and `lastUpdated`; the status may be left out. */
  datatype JobDraft = JobDraft(
    companyName: string,
    position: string,
    location: string,
    jobDescription: string,
    applicationDate: string,
    status: Option<ApplicationStatus>,
    notes: Option<string>,
    salary: Option<string>,
    url: Option<string>,
    contactName: Option<string>,
    contactEmail: Option<string>,
    resumePath: Option<string>,
    coverLetterPath: Option<string>,
    interviews: Option<seq<Interview>>)

  /** The draft fields of a record. */
  function DraftOf(j: Job): JobDraft
  {
    JobDraft(j.companyName, j.position, j.location, j.jobDescription, j.applicationDate,
             Some(j.status), j.notes, j.salary, j.url, j.contactName, j.contactEmail,
             j.resumePath, j.coverLetterPath, j.interviews)
  }

  /** The record `addJob` builds: the draft with the given id and timestamp,
      and status `applied` when the draft has none. */
  function NewJob(d: JobDraft, id: string, now: string): (j: Job)
    ensures j.id == id && j.lastUpdated == now
    ensures j.status == if d.status.Some? then d.status.value else Applied
    ensures DraftOf(j) == d.(status := Some(j.status))
  {
    Job(id, d.companyName, d.position, d.location, d.jobDescription, d.applicationDate,
        d.status.GetOr(Applied), d.notes, d.salary, d.url, d.contactName, d.contactEmail,
        d.resumePath, d.coverLetterPath, now, d.interviews)
  }

  /** Some record carries the id. */
  predicate HasId(jobs: seq<Job>, id: string)
  {
    exists j :: j in jobs && j.id == id
  }

  /** No two records share an id. */
  ghost predicate UniqueIds(jobs: seq<Job>)
  {
    forall i, j :: 0 <= i < j < |jobs| ==> jobs[i].id != jobs[j].id
  }

  /** The lookup by id: the first record whose id matches, if any. */
  function FindById(jobs: seq<Job>, id: string): (r: Option<Job>)
    ensures r.None? <==> !HasId(jobs, id)
    ensures r.Some? ==> exists i :: 0 <= i < |jobs| && jobs[i] == r.value && r.value.id == id
                                    && forall k :: 0 <= k < i ==> jobs[k].id != id
  {
    if jobs == [] then None
    else if jobs[0].id == id then Some(jobs[0])
    else
      var r := FindById(jobs[1..], id);
      assert forall j :: j in jobs <==> j == jobs[0] || j in jobs[1..];
      if r.Some? then
        var i :| 0 <= i < |jobs[1..]| && jobs[1..][i] == r.value && r.value.id == id
                 && forall k :: 0 <= k < i ==> jobs[1..][k].id != id;
        assert jobs[i + 1] == r.value;
        assert forall k :: 0 <= k < i + 1 ==> jobs[k].id != id by {
          forall k | 0 <= k < i + 1 ensures jobs[k].id != id {
            if k > 0 { assert jobs[k] == jobs[1..][k - 1]; }
          }
        }
        r
      else r
  }

  /** The update by id: every record whose id matches becomes `u`. */
  function Replaced(jobs: seq<Job>, u: Job): (r: seq<Job>)
    ensures |r| == |jobs|
    ensures forall i :: 0 <= i < |jobs| ==> r[i] == if jobs[i].id == u.id then u else jobs[i]
  {
    if jobs == [] then []
    else [if jobs[0].id == u.id then u else jobs[0]] + Replaced(jobs[1..], u)
  }

  function IdIsNot(id: string): Job -> bool
  {
    (j: Job) => j.id != id
  }

  /** The deletion by id: the records whose id differs, in order. */
  function Without(jobs: seq<Job>, id: string): (r: seq<Job>)
    ensures forall j :: j in r <==> j in jobs && j.id != id
  {
    Keep(jobs, IdIsNot(id))
  }

  /** Appending a record with a fresh id keeps the ids unique and makes it
      the record found under that id. */
  lemma {:induction false} AppendFresh(jobs: seq<Job>, j: Job)
    requires !HasId(jobs, j.id)
    ensures UniqueIds(jobs) ==> UniqueIds(jobs + [j])
    ensures FindById(jobs + [j], j.id) == Some(j)
  {
    if jobs != [] {
      assert (jobs + [j])[1..] == jobs[1..] + [j];
      assert !HasId(jobs[1..], j.id) by {
        forall x | x in jobs[1..] ensures x.id != j.id { assert x in jobs; }
      }
      AppendFresh(jobs[1..], j);
      assert jobs[0] in jobs;
    }
    if UniqueIds(jobs) {
      var r := jobs + [j];
      forall a, b | 0 <= a < b < |r| ensures r[a].id != r[b].id {
        if b == |jobs| { assert r[a] in jobs; }
      }
    }
  }

  /** An update leaves every id where it was: same length, same ids. */
  lemma ReplacedKeepsIds(jobs: seq<Job>, u: Job)
    ensures forall i :: 0 <= i < |jobs| ==> Replaced(jobs, u)[i].id == jobs[i].id
    ensures UniqueIds(jobs) ==> UniqueIds(Replaced(jobs, u))
  {
  }

  /** Updating an id no record carries inserts nothing. */
  lemma ReplacedAbsent(jobs: seq<Job>, u: Job)
    requires !HasId(jobs, u.id)
    ensures Replaced(jobs, u) == jobs
  {
    var r := Replaced(jobs, u);
    forall i | 0 <= i < |jobs| ensures r[i] == jobs[i] {
      assert jobs[i] in jobs;
    }
  }

  /** After an update the id finds the new version, if there was an old one;
      other ids find what they found before. */
  lemma {:induction false} FindAfterReplace(jobs: seq<Job>, u: Job, id: string)
    ensures FindById(Replaced(jobs, u), id)
         == if id != u.id then FindById(jobs, id)
            else if HasId(jobs, id) then Some(u) else None
  {
    if jobs != [] {
      FindAfterReplace(jobs[1..], u, id);
      var r := Replaced(jobs, u);
      assert r[1..] == Replaced(jobs[1..], u);
      assert forall j :: j in jobs <==> j == jobs[0] || j in jobs[1..];
    }
  }

  /** Deleting an id no record carries changes nothing. */
  lemma WithoutAbsent(jobs: seq<Job>, id: string)
    requires !HasId(jobs, id)
    ensures Without(jobs, id) == jobs
  {
    KeepAll(jobs, IdIsNot(id));
  }

  /** Deleting twice is deleting once. */
  lemma WithoutIdempotent(jobs: seq<Job>, id: string)
    ensures Without(Without(jobs, id), id) == Without(jobs, id)
  {
    KeepAll(Without(jobs, id), IdIsNot(id));
  }

  /** Deletion removes every record with the id, keeps every other record
      as often as before, and keeps the survivors in their order. */
  lemma WithoutKeepsRest(jobs: seq<Job>, more: seq<Job>, id: string)
    ensures forall j :: multiset(Without(jobs, id))[j] == if j.id == id then 0 else multiset(jobs)[j]
    ensures Without(jobs + more, id) == Without(jobs, id) + Without(more, id)
    ensures !HasId(Without(jobs, id), id)
    ensures FindById(Without(jobs, id), id) == None
  {
    KeepMultiset(jobs, IdIsNot(id));
    KeepConcat(jobs, more, IdIsNot(id));
  }

  /** Deletion keeps the ids unique. */
  lemma {:induction false} WithoutKeepsUnique(jobs: seq<Job>, id: string)
    requires UniqueIds(jobs)
    ensures UniqueIds(Without(jobs, id))
  {
    if jobs != [] {
      assert UniqueIds(jobs[1..]) by {
        forall a, b | 0 <= a < b < |jobs[1..]| ensures jobs[1..][a].id != jobs[1..][b].id {
          assert jobs[1..][a] == jobs[a + 1] && jobs[1..][b] == jobs[b + 1];
        }
      }
      WithoutKeepsUnique(jobs[1..], id);
      var t := Without(jobs[1..], id);
      if jobs[0].id != id {
        var r := [jobs[0]] + t;
        assert Without(jobs, id) == r;
        forall a, b | 0 <= a < b < |r| ensures r[a].id != r[b].id {
          if a == 0 {
            assert r[b] in t;
            assert r[b] in jobs[1..];
            var k :| 0 <= k < |jobs[1..]| && jobs[1..][k] == r[b];
            assert jobs[k + 1] == r[b];
          } else {
            assert r[a] == t[a - 1] && r[b] == t[b - 1];
          }
        }
      }
    }
  }

  // ---------------------------------------------------------------------
  // The local record store and the coordinator

  class JobStore {
    /** The `jobs` key: the whole record collection. */
    var jobs: Slot<seq<Job>>
    /** The `jobFilter` key: the last saved filter. */
    var jobFilter: Slot<Filter>
    /** The browser refuses writes (`setItem` throws). */
    var quotaExceeded: bool

    constructor (jobs: Slot<seq<Job>>, jobFilter: Slot<Filter>, quotaExceeded: bool)
      ensures this.jobs == jobs && this.jobFilter == jobFilter
      ensures this.quotaExceeded == quotaExceeded
    {
      this.jobs := jobs;
      this.jobFilter := jobFilter;
      this.quotaExceeded := quotaExceeded;
    }

    /** `getJobsFromLocalStorage`: a missing or corrupt list reads as empty. */
    function LocalJobs(): (js: seq<Job>)
      reads this
      ensures jobs.Stored? ==> js == jobs.value
      ensures !jobs.Stored? ==> js == []
    {
      jobs.ReadOr([])
    }

    /** `getApplicationCount`: the number of locally stored records. */
    function ApplicationCount(): nat
      reads this
    {
      |LocalJobs()|
    }

    /** `getJobByIdFromLocalStorage`: the first local record with the id. */
    function LocalJobById(id: string): (r: Option<Job>)
      reads this
      ensures r.Some? ==> r.value in LocalJobs() && r.value.id == id
      ensures r.None? <==> !HasId(LocalJobs(), id)
    {
      FindById(LocalJobs(), id)
    }

    /** `getFilter`: the saved filter, or the default one when it is
        missing or corrupt. */
    function GetFilter(): (f: Filter)
      reads this
      ensures jobFilter.Stored? ==> f == jobFilter.value
      ensures !jobFilter.Stored? ==> f == Filter("", All, ByDate, Desc)
    {
      jobFilter.ReadOr(DefaultFilter)
    }

    /** `saveJobs`: writes the whole collection; a refused write is caught
        and leaves the stored value as it was. */
    method SaveJobs(js: seq<Job>)
      modifies this`jobs
      ensures jobs == if quotaExceeded then old(jobs) else Stored(js)
    {
      if !quotaExceeded {
        jobs := Stored(js);
      }
    }

    /** `saveFilter`: a refused write is not caught and reaches the caller. */
    method SaveFilter(f: Filter) returns (outcome: WriteOutcome)
      modifies this`jobFilter
      ensures outcome == if quotaExceeded then QuotaExceeded else Written
      ensures jobFilter == if quotaExceeded then old(jobFilter) else Stored(f)
      ensures outcome == Written ==> GetFilter() == f
    {
      if quotaExceeded {
        outcome := QuotaExceeded;
      } else {
        jobFilter := Stored(f);
        outcome := Written;
      }
    }

    /** `getJobs`: the remote list on success, else the local list. */
    method GetJobs(c: MongoDBConfig, response: Response<seq<Job>>)
      returns (r: seq<Job>, sent: Option<Request>)
      ensures sent == if RemoteEnabled(c) then Some(Request(Get, CollectionUrl(c), None)) else None
      ensures RemoteSucceeded(c, response) ==> r == response.value
      ensures !RemoteSucceeded(c, response) ==> r == LocalJobs()
    {
      sent := None;
      if RemoteEnabled(c) {
        sent := Some(Request(Get, CollectionUrl(c), None));
        if response.Ok? {
          return response.value, sent;
        }
      }
      r := LocalJobs();
    }

    /** `getJobById`: the remote record on success; on any failure, a 404
        included, the first local record with the id. */
    method GetJobById(c: MongoDBConfig, id: string, response: Response<Job>)
      returns (r: Option<Job>, sent: Option<Request>)
      ensures sent == if RemoteEnabled(c) then Some(Request(Get, ResourceUrl(c, id), None)) else None
      ensures RemoteSucceeded(c, response) ==> r == Some(response.value)
      ensures !RemoteSucceeded(c, response) ==> r == LocalJobById(id)
    {
      sent := None;
      if RemoteEnabled(c) {
        sent := Some(Request(Get, ResourceUrl(c, id), None));
        if response.Ok? {
          return Some(response.value), sent;
        }
      }
      r := LocalJobById(id);
    }

    /** The local path of `addJob`: read the list, append, write it back. */
    method AddLocally(newJob: Job)
      modifies this`jobs
      ensures jobs == if quotaExceeded then old(jobs) else Stored(old(LocalJobs()) + [newJob])
    {
      var current := LocalJobs();
      SaveJobs(current + [newJob]);
    }

    /** `addJob`: builds the record, posts it, and on failure appends it to
        the local list. A remote success leaves the local store alone. */
    method AddJob(c: MongoDBConfig, d: JobDraft, freshId: string, now: string, response: Response<Job>)
      returns (r: Job, sent: Option<Request>)
      requires !HasId(LocalJobs(), freshId)
      modifies this`jobs
      ensures sent == if RemoteEnabled(c)
                      then Some(Request(Post, CollectionUrl(c), Some(NewJob(d, freshId, now))))
                      else None
      ensures RemoteSucceeded(c, response) ==> r == response.value && jobs == old(jobs)
      ensures !RemoteSucceeded(c, response) ==> r == NewJob(d, freshId, now)
      ensures !RemoteSucceeded(c, response) ==>
                jobs == if quotaExceeded then old(jobs) else Stored(old(LocalJobs()) + [r])
      ensures !RemoteSucceeded(c, response) && !quotaExceeded ==>
                && ApplicationCount() == old(ApplicationCount()) + 1
                && LocalJobById(freshId) == Some(r)
                && (UniqueIds(old(LocalJobs())) ==> UniqueIds(LocalJobs()))
    {
      var newJob := NewJob(d, freshId, now);
      sent := None;
      if RemoteEnabled(c) {
        sent := Some(Request(Post, CollectionUrl(c), Some(newJob)));
        if response.Ok? {
          return response.value, sent;
        }
      }
      AppendFresh(LocalJobs(), newJob);
      AddLocally(newJob);
      r := newJob;
    }

    /** The local path of `updateJob`: replace every record with the id. */
    method UpdateLocally(stamped: Job)
      modifies this`jobs
      ensures jobs == if quotaExceeded then old(jobs) else Stored(Replaced(old(LocalJobs()), stamped))
    {
      var current := LocalJobs();
      SaveJobs(Replaced(current, stamped));
    }

    /** `updateJob`: stamps the record, puts it, and on failure replaces the
        local records with its id. The stamped record is returned even when
        no local record had the id. */
    method UpdateJob(c: MongoDBConfig, u: Job, now: string, response: Response<Job>)
      returns (r: Job, sent: Option<Request>)
      modifies this`jobs
      ensures sent == if RemoteEnabled(c)
                      then Some(Request(Put, ResourceUrl(c, u.id), Some(u.(lastUpdated := now))))
                      else None
      ensures RemoteSucceeded(c, response) ==> r == response.value && jobs == old(jobs)
      ensures !RemoteSucceeded(c, response) ==> r == u.(lastUpdated := now)
      ensures !RemoteSucceeded(c, response) ==>
                jobs == if quotaExceeded then old(jobs) else Stored(Replaced(old(LocalJobs()), r))
      ensures !RemoteSucceeded(c, response) && !quotaExceeded ==>
                && ApplicationCount() == old(ApplicationCount())
                && LocalJobById(u.id) == (if HasId(old(LocalJobs()), u.id) then Some(r) else None)
                && (UniqueIds(old(LocalJobs())) ==> UniqueIds(LocalJobs()))
    {
      var stamped := u.(lastUpdated := now);
      sent := None;
      if RemoteEnabled(c) {
        sent := Some(Request(Put, ResourceUrl(c, u.id), Some(stamped)));
        if response.Ok? {
          return response.value, sent;
        }
      }
      FindAfterReplace(LocalJobs(), stamped, u.id);
      ReplacedKeepsIds(LocalJobs(), stamped);
      UpdateLocally(stamped);
      r := stamped;
    }

    /** The local path of `deleteJob`: keep the records without the id. */
    method DeleteLocally(id: string)
      modifies this`jobs
      ensures jobs == if quotaExceeded then old(jobs) else Stored(Without(old(LocalJobs()), id))
    {
      var current := LocalJobs();
      SaveJobs(Without(current, id));
    }

    /** `deleteJob`: deletes remotely, and on failure removes the local
        records with the id. */
    method DeleteJob(c: MongoDBConfig, id: string, response: Response<()>)
      returns (sent: Option<Request>)
      modifies this`jobs
      ensures sent == if RemoteEnabled(c) then Some(Request(Delete, ResourceUrl(c, id), None)) else None
      ensures RemoteSucceeded(c, response) ==> jobs == old(jobs)
      ensures !RemoteSucceeded(c, response) ==>
                jobs == if quotaExceeded then old(jobs) else Stored(Without(old(LocalJobs()), id))
      ensures !RemoteSucceeded(c, response) && !quotaExceeded ==>
                && LocalJobById(id) == None
                && (UniqueIds(old(LocalJobs())) ==> UniqueIds(LocalJobs()))
    {
      sent := None;
      if RemoteEnabled(c) {
        sent := Some(Request(Delete, ResourceUrl(c, id), None));
        if response.Ok? {
          return sent;
        }
      }
      WithoutKeepsRest(LocalJobs(), [], id);
      if UniqueIds(LocalJobs()) {
        WithoutKeepsUnique(LocalJobs(), id);
      }
      DeleteLocally(id);
    }
  }

  /** A create, update and delete of one record with remote storage off,
      starting from an empty browser: the record is listed once with its
      status, the update is visible under its id, and after the delete the
      id finds nothing and the list is empty. */
  method LocalLifecycle(c: MongoDBConfig, d: JobDraft, id: string, t1: string, t2: string)
    returns (listed: seq<Job>, updated: Option<Job>, gone: Option<Job>, after: seq<Job>)
    requires !RemoteEnabled(c)
    requires d.companyName == "Acme" && d.position == "SWE" && d.status == Some(Applied)
    ensures |listed| == 1 && listed[0].companyName == "Acme" && listed[0].status == Applied
    ensures listed[0].id == id && listed[0].lastUpdated == t1
    ensures updated.Some? && updated.value.status == Interviewing && updated.value.lastUpdated == t2
    ensures gone == None && after == []
  {
    var store := new JobStore(Absent, Absent, false);
    var created, _ := store.AddJob(c, d, id, t1, Fail);
    var sent;
    listed, sent := store.GetJobs(c, Fail);
    var _, _ := store.UpdateJob(c, created.(status := Interviewing), t2, Fail);
    updated, sent := store.GetJobById(c, id, Fail);
    var _ := store.DeleteJob(c, id, Fail);
    gone, sent := store.GetJobById(c, id, Fail);
    after, sent := store.GetJobs(c, Fail);
  }
}
