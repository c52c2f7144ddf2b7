/**
 * The `admin` slice of the Redux store: the listed users, the user counts
 * shown on the dashboard, the pagination of the user list, the search text,
 * a loading flag and the last error.
 */
module AdminSlice {
  import opened Js
  import opened Wrappers
  import opened DocList

  /** The `stats` object. */
  datatype Stats = Stats(totalUsers: int, activeUsers: int, inactiveUsers: int)

  const InitialStats: Stats := Stats(0, 0, 0)
  const InitialPagination: Pagination := Pagination(1, 20, 0)

  /**
   * The counter update of `updateUserStatus`: a user turned active moves one
   * count from inactive to active, otherwise one count moves the other way.
   * The sum of the two and the total stay as they were.
   */
  function MoveStatus(s: Stats, nowActive: bool): (r: Stats)
    ensures r.activeUsers + r.inactiveUsers == s.activeUsers + s.inactiveUsers
    ensures r.totalUsers == s.totalUsers
    ensures nowActive ==> r.activeUsers == s.activeUsers + 1
    ensures !nowActive ==> r.inactiveUsers == s.inactiveUsers + 1
  {
    if nowActive then s.(activeUsers := s.activeUsers + 1, inactiveUsers := s.inactiveUsers - 1)
    else s.(activeUsers := s.activeUsers - 1, inactiveUsers := s.inactiveUsers + 1)
  }

  /** Activating a user and deactivating one again restores the counts, in either order. */
  lemma MoveStatusUndo(s: Stats, nowActive: bool)
    ensures MoveStatus(MoveStatus(s, nowActive), !nowActive) == s
  {
  }

  /** `action.payload.isActive`, read for its truthiness. */
  predicate TurnsActive(payload: Doc) {
    Truthy(Field(payload, "isActive"))
  }

  class AdminState {
    var users: seq<Doc>
    var stats: Stats
    var pagination: Pagination
    var search: Json
    var loading: bool
    var error: Json

    /** `initialState` */
    constructor()
      ensures users == [] && stats == InitialStats && pagination == InitialPagination
      ensures search == Str("") && !loading && error == Null
    {
      users := [];
      stats := InitialStats;
      pagination := InitialPagination;
      search := Str("");
      loading := false;
      error := Null;
    }

    /** `setUsers`: the list and the total are taken from the payload, and loading ends. */
    method SetUsers(data: seq<Doc>, count: int)
      modifies this
      ensures users == data && pagination == old(pagination).(total := count) && !loading
      ensures stats == old(stats) && search == old(search) && error == old(error)
    {
      users := data;
      pagination := pagination.(total := count);
      loading := false;
    }

    /**
     * `updateUserStatus`: the first user with the payload's id is replaced,
     * and one count moves between active and inactive as the payload says,
     * whether or not a user matched.
     */
    method UpdateUserStatus(payload: Doc)
      modifies this
      ensures users == ReplaceFirst(old(users), payload)
      ensures stats == MoveStatus(old(stats), TurnsActive(payload))
      ensures stats.activeUsers + stats.inactiveUsers == old(stats.activeUsers + stats.inactiveUsers)
      ensures pagination == old(pagination) && search == old(search)
      ensures loading == old(loading) && error == old(error)
    {
      var index := FindIndex(users, payload.id);
      if index != -1 {
        users := users[index := payload];
      }
      if TurnsActive(payload) {
        stats := stats.(activeUsers := stats.activeUsers + 1);
        stats := stats.(inactiveUsers := stats.inactiveUsers - 1);
      } else {
        stats := stats.(activeUsers := stats.activeUsers - 1);
        stats := stats.(inactiveUsers := stats.inactiveUsers + 1);
      }
    }

    /** `removeUser`: every user with the id goes; the list total and the user total each drop by one. */
    method RemoveUser(id: Option<string>)
      modifies this
      ensures users == WithoutId(old(users), id)
      ensures pagination == old(pagination).(total := old(pagination).total - 1)
      ensures stats == old(stats).(totalUsers := old(stats).totalUsers - 1)
      ensures search == old(search) && loading == old(loading) && error == old(error)
    {
      users := WithoutId(users, id);
      pagination := pagination.(total := pagination.total - 1);
      stats := stats.(totalUsers := stats.totalUsers - 1);
    }

    /** `setSearch`: only the search text changes. */
    method SetSearch(payload: Json)
      modifies this
      ensures search == payload
      ensures users == old(users) && stats == old(stats) && pagination == old(pagination)
      ensures loading == old(loading) && error == old(error)
    {
      search := payload;
    }

    /** `setError`: the error is recorded and loading ends. */
    method SetError(payload: Json)
      modifies this
      ensures error == payload && !loading
      ensures users == old(users) && stats == old(stats) && pagination == old(pagination)
      ensures search == old(search)
    {
      error := payload;
      loading := false;
    }
  }
}
