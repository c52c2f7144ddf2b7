/**
 * The `notes` slice of the Redux store: the user's notes, the selected one,
 * the filters (`search` and `jobId`), the pagination with its running total,
 * a loading flag and the last error.
 */
module NotesSlice {
  import opened Js
  import opened Wrappers
  import opened DocList

  const InitialFilters: map<string, Json> := map["search" := Str(""), "jobId" := Str("")]
  const InitialPagination: Pagination := Pagination(1, 10, 0)

  /**
   * `payload.count || payload.data.length`: the count the server reported,
   * unless it is absent or zero, in which case the length of the page.
   */
  function TotalFor(count: Option<int>, data: seq<Doc>): (total: int)
    ensures count.None? || count == Some(0) ==> total == |data|
    ensures count.Some? && count.value != 0 ==> total == count.value
    ensures total == 0 ==> data == []
  {
    if count.Some? && count.value != 0 then count.value else |data|
  }

  class NotesState {
    var notes: seq<Doc>
    var selectedNote: Option<Doc>
    var filters: map<string, Json>
    var pagination: Pagination
    var loading: bool
    var error: Json

    /** `initialState` */
    constructor()
      ensures notes == [] && selectedNote.None? && filters == InitialFilters
      ensures pagination == InitialPagination && !loading && error == Null
      ensures Counted()
    {
      notes := [];
      selectedNote := None;
      filters := InitialFilters;
      pagination := InitialPagination;
      loading := false;
      error := Null;
    }

    /** The running total is the number of notes held. */
    predicate Counted()
      reads this
    {
      pagination.total == |notes|
    }

    /** Nothing is selected, or the selected note is one of the list. */
    predicate SelectionListed()
      reads this
    {
      Listed(selectedNote, notes)
    }

    /** `setNotes`: the list is replaced, the total is taken from the payload, and loading ends. */
    method SetNotes(data: seq<Doc>, count: Option<int>)
      modifies this
      ensures notes == data && pagination == old(pagination).(total := TotalFor(count, data)) && !loading
      ensures count.None? ==> Counted()
      ensures selectedNote == old(selectedNote) && filters == old(filters) && error == old(error)
    {
      notes := data;
      pagination := pagination.(total := TotalFor(count, data));
      loading := false;
    }

    /** `addNote`: the payload goes in front and the total grows by exactly one. */
    method AddNote(payload: Doc)
      modifies this
      ensures notes == [payload] + old(notes)
      ensures pagination == old(pagination).(total := old(pagination).total + 1)
      ensures old(Counted()) ==> Counted()
      ensures old(SelectionListed()) ==> SelectionListed()
      ensures selectedNote == old(selectedNote) && filters == old(filters)
      ensures loading == old(loading) && error == old(error)
    {
      if SelectionListed() {
        AddKeepsSelectionListed(notes, selectedNote, payload);
      }
      notes := [payload] + notes;
      pagination := pagination.(total := pagination.total + 1);
    }

    /** `updateNote`: the first note with the payload's id is replaced, and a selected note with that id becomes the payload. */
    method UpdateNote(payload: Doc)
      modifies this
      ensures notes == ReplaceFirst(old(notes), payload)
      ensures selectedNote == Synced(old(selectedNote), payload)
      ensures old(Counted()) ==> Counted()
      ensures old(SelectionListed()) && payload.id.Some? ==> SelectionListed()
      ensures filters == old(filters) && pagination == old(pagination)
      ensures loading == old(loading) && error == old(error)
    {
      if SelectionListed() && payload.id.Some? {
        UpdateKeepsSelectionListed(notes, selectedNote, payload);
      }
      var index := FindIndex(notes, payload.id);
      if index != -1 {
        notes := notes[index := payload];
      }
      if IdOf(selectedNote) == payload.id {
        selectedNote := Some(payload);
      }
    }

    /**
     * `deleteNote`: every note with the id goes and the total drops by one
     * whether or not a note was removed. With unique ids and the id present,
     * the total keeps counting the notes; with the id absent, it falls one
     * below the count.
     */
    method DeleteNote(id: Option<string>)
      modifies this
      ensures notes == WithoutId(old(notes), id)
      ensures pagination == old(pagination).(total := old(pagination).total - 1)
      ensures selectedNote == Cleared(old(selectedNote), id)
      ensures old(Counted()) && UniqueIds(old(notes)) && FindIndex(old(notes), id) >= 0 ==> Counted()
      ensures FindIndex(old(notes), id) == -1 ==> notes == old(notes)
      ensures old(SelectionListed()) ==> SelectionListed()
      ensures filters == old(filters) && loading == old(loading) && error == old(error)
    {
      var before := notes;
      var found := FindIndex(before, id);
      if SelectionListed() {
        DeleteKeepsSelectionListed(before, selectedNote, id);
      }
      if found >= 0 && UniqueIds(before) {
        WithoutUniqueIdRemovesOne(before, id);
      }
      if found == -1 {
        WithoutAbsentId(before, id);
      }
      notes := WithoutId(before, id);
      pagination := pagination.(total := pagination.total - 1);
      if IdOf(selectedNote) == id {
        selectedNote := None;
      }
    }

    /** `setFilters`: the payload's keys overwrite, every other filter is kept. */
    method SetFilters(payload: map<string, Json>)
      modifies this
      ensures filters == Spread(old(filters), payload)
      ensures notes == old(notes) && selectedNote == old(selectedNote) && pagination == old(pagination)
      ensures loading == old(loading) && error == old(error)
    {
      filters := Spread(filters, payload);
    }

    /** `setPagination`: the payload's keys overwrite, the others are kept. */
    method SetPagination(payload: PaginationPatch)
      modifies this
      ensures pagination == MergePagination(old(pagination), payload)
      ensures notes == old(notes) && selectedNote == old(selectedNote) && filters == old(filters)
      ensures loading == old(loading) && error == old(error)
    {
      pagination := MergePagination(pagination, payload);
    }

    /** `setError`: the error is recorded and loading ends. */
    method SetError(payload: Json)
      modifies this
      ensures error == payload && !loading
      ensures notes == old(notes) && selectedNote == old(selectedNote) && filters == old(filters)
      ensures pagination == old(pagination)
    {
      error := payload;
      loading := false;
    }
  }
}
