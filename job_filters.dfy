/** `applyFilters` and the default filter of the storage module: a search
    filter, a status filter and a stable sort, applied to a copy of the
    record list (here a sequence value, which the pipeline cannot alter). */
module JobFilters {
  import opened Types
  import opened Sequences

  /** The JavaScript runtime services the pipeline calls. Only their shape is
      modelled: `lower` is `String.prototype.toLowerCase`, `localeLe(a, b)`
      is `a.localeCompare(b) <= 0`, and `time` is `new Date(s).getTime()`. */
  datatype Runtime = Runtime(
    lower: string -> string,
    localeLe: (string, string) -> bool,
    time: string -> int)

  /** `localeCompare` orders all strings consistently. */
  ghost predicate ValidRuntime(rt: Runtime)
  {
    TotalPreorder(rt.localeLe)
  }

  /** The filter used when none has been saved. */
  const DefaultFilter := Filter("", All, ByDate, Desc)

  /** The date sort key: the parsed application date, 0 when there is none. */
  function DateKey(rt: Runtime, j: Job): int
  {
    if j.applicationDate == "" then 0 else rt.time(j.applicationDate)
  }

  /** The lower-cased term occurs in one of the four searchable fields. */
  predicate MatchesSearch(rt: Runtime, term: string, j: Job)
  {
    || Includes(rt.lower(j.companyName), term)
    || Includes(rt.lower(j.position), term)
    || Includes(rt.lower(j.location), term)
    || Includes(rt.lower(j.jobDescription), term)
  }

  function SearchPredicate(rt: Runtime, term: string): Job -> bool
  {
    (j: Job) => MatchesSearch(rt, term, j)
  }

  function StatusPredicate(s: ApplicationStatus): Job -> bool
  {
    (j: Job) => j.status == s
  }

  /** The comparator's `comparison <= 0` for the ascending order of a key. */
  predicate AscendingLe(rt: Runtime, key: SortKey, a: Job, b: Job)
  {
    match key
    case ByDate => DateKey(rt, a) <= DateKey(rt, b)
    case ByCompany => rt.localeLe(a.companyName, b.companyName)
    case ByStatus => rt.localeLe(StatusName(a.status), StatusName(b.status))
  }

  /** `a` may stay before `b`: the comparator, negated for `desc`, is not
      positive. */
  predicate Precedes(rt: Runtime, f: Filter, a: Job, b: Job)
  {
    if f.sortOrder == Asc then AscendingLe(rt, f.sortBy, a, b)
    else AscendingLe(rt, f.sortBy, b, a)
  }

  function Order(rt: Runtime, f: Filter): (Job, Job) -> bool
  {
    (a: Job, b: Job) => Precedes(rt, f, a, b)
  }

  function SearchStage(rt: Runtime, jobs: seq<Job>, f: Filter): seq<Job>
  {
    if f.search != "" then Keep(jobs, SearchPredicate(rt, rt.lower(f.search))) else jobs
  }

  function StatusStage(jobs: seq<Job>, f: Filter): seq<Job>
  {
    if f.status != All then Keep(jobs, StatusPredicate(f.status.status)) else jobs
  }

  /** Search filter, then status filter, then the stable sort. */
  function ApplyFilters(rt: Runtime, jobs: seq<Job>, f: Filter): seq<Job>
  {
    Sort(StatusStage(SearchStage(rt, jobs, f), f), Order(rt, f))
  }

  /** A record passes both filters. */
  predicate Passes(rt: Runtime, f: Filter, j: Job)
  {
    && (f.search != "" ==> MatchesSearch(rt, rt.lower(f.search), j))
    && (f.status.Only? ==> j.status == f.status.status)
  }

  function Selected(rt: Runtime, f: Filter): Job -> bool
  {
    (j: Job) => Passes(rt, f, j)
  }

  /** The two filter stages keep exactly the records that pass both. */
  lemma FilterStages(rt: Runtime, jobs: seq<Job>, f: Filter)
    ensures StatusStage(SearchStage(rt, jobs, f), f) == Keep(jobs, Selected(rt, f))
  {
    var sp := SearchPredicate(rt, rt.lower(f.search));
    if f.search != "" && f.status != All {
      KeepKeep(jobs, sp, StatusPredicate(f.status.status), Selected(rt, f));
    } else if f.search != "" {
      KeepSame(jobs, sp, Selected(rt, f));
    } else if f.status != All {
      KeepSame(jobs, StatusPredicate(f.status.status), Selected(rt, f));
    } else {
      KeepAll(jobs, Selected(rt, f));
    }
  }

  /** Every result record comes from the input and passes both filters, and
      every passing input record is in the result, as often as in the input. */
  lemma ApplyFiltersSelects(rt: Runtime, jobs: seq<Job>, f: Filter)
    ensures forall j :: j in ApplyFilters(rt, jobs, f) <==> j in jobs && Passes(rt, f, j)
    ensures forall j :: multiset(ApplyFilters(rt, jobs, f))[j]
                     == if Passes(rt, f, j) then multiset(jobs)[j] else 0
  {
    FilterStages(rt, jobs, f);
    KeepMultiset(jobs, Selected(rt, f));
    var r := ApplyFilters(rt, jobs, f);
    forall j ensures j in r <==> j in jobs && Passes(rt, f, j) {
      assert j in r <==> j in multiset(r);
    }
  }

  /** With no search term and status `all`, the result is a permutation of
      the input. */
  lemma ApplyFiltersPermutes(rt: Runtime, jobs: seq<Job>, f: Filter)
    requires f.search == "" && f.status == All
    ensures multiset(ApplyFilters(rt, jobs, f)) == multiset(jobs)
  {
  }

  lemma OrderIsTotalPreorder(rt: Runtime, f: Filter)
    requires ValidRuntime(rt)
    ensures TotalPreorder(Order(rt, f))
  {
  }

  /** The result is ordered by the chosen key; `desc` reverses the key order,
      so a later date comes first. */
  lemma ApplyFiltersOrdered(rt: Runtime, jobs: seq<Job>, f: Filter)
    requires ValidRuntime(rt)
    ensures var r := ApplyFilters(rt, jobs, f); f.sortBy == ByDate && f.sortOrder == Asc ==>
      forall i, j :: 0 <= i < j < |r| ==> DateKey(rt, r[i]) <= DateKey(rt, r[j])
    ensures var r := ApplyFilters(rt, jobs, f); f.sortBy == ByDate && f.sortOrder == Desc ==>
      forall i, j :: 0 <= i < j < |r| ==> DateKey(rt, r[j]) <= DateKey(rt, r[i])
    ensures var r := ApplyFilters(rt, jobs, f); f.sortBy == ByCompany && f.sortOrder == Asc ==>
      forall i, j :: 0 <= i < j < |r| ==> rt.localeLe(r[i].companyName, r[j].companyName)
    ensures var r := ApplyFilters(rt, jobs, f); f.sortBy == ByCompany && f.sortOrder == Desc ==>
      forall i, j :: 0 <= i < j < |r| ==> rt.localeLe(r[j].companyName, r[i].companyName)
    ensures var r := ApplyFilters(rt, jobs, f); f.sortBy == ByStatus && f.sortOrder == Asc ==>
      forall i, j :: 0 <= i < j < |r| ==> rt.localeLe(StatusName(r[i].status), StatusName(r[j].status))
    ensures var r := ApplyFilters(rt, jobs, f); f.sortBy == ByStatus && f.sortOrder == Desc ==>
      forall i, j :: 0 <= i < j < |r| ==> rt.localeLe(StatusName(r[j].status), StatusName(r[i].status))
  {
    OrderIsTotalPreorder(rt, f);
    SortSorted(StatusStage(SearchStage(rt, jobs, f), f), Order(rt, f));
  }

  /** The sort is stable: result records that tie on the key appear in their
      input order. */
  lemma ApplyFiltersStable(rt: Runtime, jobs: seq<Job>, f: Filter, k: Job)
    requires ValidRuntime(rt)
    ensures Keep(ApplyFilters(rt, jobs, f), Tied(Order(rt, f), k))
         == Keep(Keep(jobs, Selected(rt, f)), Tied(Order(rt, f), k))
  {
    OrderIsTotalPreorder(rt, f);
    FilterStages(rt, jobs, f);
    SortStable(Keep(jobs, Selected(rt, f)), Order(rt, f), k);
  }

  /** Applying the same filter twice gives the same ordered sequence. */
  lemma ApplyFiltersIdempotent(rt: Runtime, jobs: seq<Job>, f: Filter)
    requires ValidRuntime(rt)
    ensures ApplyFilters(rt, ApplyFilters(rt, jobs, f), f) == ApplyFilters(rt, jobs, f)
  {
    var r := ApplyFilters(rt, jobs, f);
    ApplyFiltersSelects(rt, jobs, f);
    FilterStages(rt, r, f);
    KeepAll(r, Selected(rt, f));
    OrderIsTotalPreorder(rt, f);
    FilterStages(rt, jobs, f);
    SortSorted(Keep(jobs, Selected(rt, f)), Order(rt, f));
    SortOfSorted(r, Order(rt, f));
  }

  /** Two dated records under the default filter: the later date comes first,
      whatever their input order. */
  lemma LaterDateFirst(rt: Runtime, early: Job, late: Job)
    requires early.applicationDate != "" && late.applicationDate != ""
    requires rt.time(early.applicationDate) < rt.time(late.applicationDate)
    ensures ApplyFilters(rt, [early, late], DefaultFilter) == [late, early]
    ensures ApplyFilters(rt, [late, early], DefaultFilter) == [late, early]
  {
    var le := Order(rt, DefaultFilter);
    assert !le(early, late) && le(late, early);
    assert Sort([late], le) == [late] && Sort([early], le) == [early];
    assert [early, late][1..] == [late] && [late, early][1..] == [early];
  }

  /** A record without an application date sorts as time 0: after every
      record with a positive date under the default (descending) filter. */
  lemma UndatedSortsLast(rt: Runtime, undated: Job, dated: Job)
    requires undated.applicationDate == "" && dated.applicationDate != ""
    requires rt.time(dated.applicationDate) > 0
    ensures ApplyFilters(rt, [undated, dated], DefaultFilter) == [dated, undated]
  {
    var le := Order(rt, DefaultFilter);
    assert !le(undated, dated);
    assert Sort([dated], le) == [dated];
    assert [undated, dated][1..] == [dated];
  }

  /** Search is a case-insensitive substring match: with a lower-casing that
      maps "Acme Corp" to "acme corp", the term "acme" selects the record. */
  lemma SearchIgnoresCase(rt: Runtime, j: Job, f: Filter)
    requires j.companyName == "Acme Corp" && rt.lower("Acme Corp") == "acme corp"
    requires f.search == "acme" && rt.lower("acme") == "acme" && f.status == All
    ensures ApplyFilters(rt, [j], f) == [j]
  {
    assert OccursAt("acme", "acme corp", 0);
    assert Passes(rt, f, j);
    assert Keep([j], SearchPredicate(rt, "acme")) == [j] by {
      assert [j][1..] == [];
    }
  }
}
