/**
 * The `jobs` slice of the Redux store: the tracked job applications, the
 * selected one, the list filters (`status` and `search`), a loading flag and
 * the last error.
 */
module JobsSlice {
  import opened Js
  import opened Wrappers
  import opened DocList

  /** The filters the slice starts with: no status and no search text. */
  const InitialFilters: map<string, Json> := map["status" := Str(""), "search" := Str("")]

  class JobsState {
    var jobs: seq<Doc>
    var selectedJob: Option<Doc>
    var filters: map<string, Json>
    var loading: bool
    var error: Json

    /** `initialState` */
    constructor()
      ensures jobs == [] && selectedJob.None? && filters == InitialFilters
      ensures !loading && error == Null
    {
      jobs := [];
      selectedJob := None;
      filters := InitialFilters;
      loading := false;
      error := Null;
    }

    /** Nothing is selected, or the selected job is one of the list. */
    predicate SelectionListed()
      reads this
    {
      Listed(selectedJob, jobs)
    }

    /** `setJobs`: the list is replaced, loading ends and the error is cleared. */
    method SetJobs(payload: seq<Doc>)
      modifies this
      ensures jobs == payload && !loading && error == Null
      ensures selectedJob == old(selectedJob) && filters == old(filters)
    {
      jobs := payload;
      loading := false;
      error := Null;
    }

    /** `addJob`: the payload goes in front of the list. */
    method AddJob(payload: Doc)
      modifies this
      ensures jobs == [payload] + old(jobs)
      ensures old(SelectionListed()) ==> SelectionListed()
      ensures selectedJob == old(selectedJob) && filters == old(filters)
      ensures loading == old(loading) && error == old(error)
    {
      if SelectionListed() {
        AddKeepsSelectionListed(jobs, selectedJob, payload);
      }
      jobs := [payload] + jobs;
    }

    /** `updateJob`: the first job with the payload's id is replaced, and a selected job with that id becomes the payload. */
    method UpdateJob(payload: Doc)
      modifies this
      ensures jobs == ReplaceFirst(old(jobs), payload)
      ensures selectedJob == Synced(old(selectedJob), payload)
      ensures old(SelectionListed()) && payload.id.Some? ==> SelectionListed()
      ensures filters == old(filters) && loading == old(loading) && error == old(error)
    {
      if SelectionListed() && payload.id.Some? {
        UpdateKeepsSelectionListed(jobs, selectedJob, payload);
      }
      var index := FindIndex(jobs, payload.id);
      if index != -1 {
        jobs := jobs[index := payload];
      }
      if IdOf(selectedJob) == payload.id {
        selectedJob := Some(payload);
      }
    }

    /** `deleteJob`: every job with the id goes, the rest keep their order; a selected job with the id is cleared. */
    method DeleteJob(id: Option<string>)
      modifies this
      ensures jobs == WithoutId(old(jobs), id)
      ensures selectedJob == Cleared(old(selectedJob), id)
      ensures old(SelectionListed()) ==> SelectionListed()
      ensures filters == old(filters) && loading == old(loading) && error == old(error)
    {
      if SelectionListed() {
        DeleteKeepsSelectionListed(jobs, selectedJob, id);
      }
      jobs := WithoutId(jobs, id);
      if IdOf(selectedJob) == id {
        selectedJob := None;
      }
    }

    /** `setFilters`: the payload's keys overwrite, every other filter is kept. */
    method SetFilters(payload: map<string, Json>)
      modifies this
      ensures filters == Spread(old(filters), payload)
      ensures filters.Keys == old(filters).Keys + payload.Keys
      ensures forall k :: k in old(filters) && k !in payload ==> filters[k] == old(filters)[k]
      ensures jobs == old(jobs) && selectedJob == old(selectedJob)
      ensures loading == old(loading) && error == old(error)
    {
      filters := Spread(filters, payload);
    }

    /** `setError`: the error is recorded and loading ends. */
    method SetError(payload: Json)
      modifies this
      ensures error == payload && !loading
      ensures jobs == old(jobs) && selectedJob == old(selectedJob) && filters == old(filters)
    {
      error := payload;
      loading := false;
    }
  }
}
