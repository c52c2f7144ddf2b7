/**
 * The `resumes` slice of the Redux store: the user's resumes as last fetched,
 * the selected resume, the analysis on display, three progress flags and the
 * last error. Each reducer changes its draft state in place.
 */
module ResumesSlice {
  import opened Js
  import opened Wrappers
  import opened DocList

  class ResumesState {
    var resumes: seq<Doc>
    var selectedResume: Option<Doc>
    var currentAnalysis: Json
    var loading: bool
    var analyzing: bool
    var optimizing: bool
    var error: Json

    /** `initialState` */
    constructor()
      ensures resumes == [] && selectedResume.None? && currentAnalysis == Null
      ensures !loading && !analyzing && !optimizing && error == Null
    {
      resumes := [];
      selectedResume := None;
      currentAnalysis := Null;
      loading := false;
      analyzing := false;
      optimizing := false;
      error := Null;
    }

    /** Nothing is selected, or the selected resume is one of the list. */
    predicate SelectionListed()
      reads this
    {
      Listed(selectedResume, resumes)
    }

    /** `setResumes`: the list is replaced and loading ends. */
    method SetResumes(payload: seq<Doc>)
      modifies this
      ensures resumes == payload && !loading
      ensures selectedResume == old(selectedResume) && currentAnalysis == old(currentAnalysis)
      ensures analyzing == old(analyzing) && optimizing == old(optimizing) && error == old(error)
    {
      resumes := payload;
      loading := false;
    }

    /** `addResume`: the payload goes in front and the old list follows it, shifted by one. */
    method AddResume(payload: Doc)
      modifies this
      ensures resumes == [payload] + old(resumes)
      ensures resumes[0] == payload && resumes[1..] == old(resumes)
      ensures old(SelectionListed()) ==> SelectionListed()
      ensures selectedResume == old(selectedResume) && currentAnalysis == old(currentAnalysis)
      ensures loading == old(loading) && analyzing == old(analyzing) && optimizing == old(optimizing)
      ensures error == old(error)
    {
      if SelectionListed() {
        AddKeepsSelectionListed(resumes, selectedResume, payload);
      }
      resumes := [payload] + resumes;
    }

    /**
     * `updateResume`: the first resume with the payload's id is replaced (none
     * when no id matches), and a selected resume with that id becomes the payload.
     */
    method UpdateResume(payload: Doc)
      modifies this
      ensures resumes == ReplaceFirst(old(resumes), payload)
      ensures selectedResume == Synced(old(selectedResume), payload)
      ensures old(SelectionListed()) && payload.id.Some? ==> SelectionListed()
      ensures currentAnalysis == old(currentAnalysis)
      ensures loading == old(loading) && analyzing == old(analyzing) && optimizing == old(optimizing)
      ensures error == old(error)
    {
      if SelectionListed() && payload.id.Some? {
        UpdateKeepsSelectionListed(resumes, selectedResume, payload);
      }
      var index := FindIndex(resumes, payload.id);
      if index != -1 {
        resumes := resumes[index := payload];
      }
      if IdOf(selectedResume) == payload.id {
        selectedResume := Some(payload);
      }
    }

    /** `deleteResume`: every resume with the id goes, the rest keep their order; a selected resume with the id is cleared. */
    method DeleteResume(id: Option<string>)
      modifies this
      ensures resumes == WithoutId(old(resumes), id)
      ensures selectedResume == Cleared(old(selectedResume), id)
      ensures old(SelectionListed()) ==> SelectionListed()
      ensures currentAnalysis == old(currentAnalysis)
      ensures loading == old(loading) && analyzing == old(analyzing) && optimizing == old(optimizing)
      ensures error == old(error)
    {
      if SelectionListed() {
        DeleteKeepsSelectionListed(resumes, selectedResume, id);
      }
      resumes := WithoutId(resumes, id);
      if IdOf(selectedResume) == id {
        selectedResume := None;
      }
    }

    /** `setError`: the error is recorded and all three progress flags drop. */
    method SetError(payload: Json)
      modifies this
      ensures error == payload && !loading && !analyzing && !optimizing
      ensures resumes == old(resumes) && selectedResume == old(selectedResume)
      ensures currentAnalysis == old(currentAnalysis)
    {
      error := payload;
      loading := false;
      analyzing := false;
      optimizing := false;
    }

    /** `clearError`: only the error changes. */
    method ClearError()
      modifies this
      ensures error == Null
      ensures resumes == old(resumes) && selectedResume == old(selectedResume)
      ensures currentAnalysis == old(currentAnalysis)
      ensures loading == old(loading) && analyzing == old(analyzing) && optimizing == old(optimizing)
    {
      error := Null;
    }
  }
}
