/**
 * What the Redux slices of the frontend share: a list of records fetched from
 * the API, each carrying an `_id`, the selected record kept beside the list,
 * `findIndex` and `filter` by id, the object spread that merges filters and
 * pagination, and the pagination record itself.
 */
module DocList {
  import opened Js
  import opened Wrappers
  import opened Seqs

  /**
   * A record held in a slice: its `_id` (`None` when the property is absent,
   * which reads as `undefined`) and its other properties.
   */
  datatype Doc = Doc(id: Option<string>, fields: map<string, Json>)

  /** `record[key]` */
  function Field(d: Doc, key: string): Json {
    if key in d.fields then d.fields[key] else Undefined
  }

  /** `selected?._id`: `undefined` when nothing is selected (`null`). */
  function IdOf(selected: Option<Doc>): (r: Option<string>)
    ensures selected.Some? ==> r == selected.value.id
    ensures selected.None? ==> r.None?
  {
    match selected
    case None => None
    case Some(d) => d.id
  }

  /** `xs.findIndex(x => x._id === id)`: the first position holding that id, or -1. */
  function FindIndex(xs: seq<Doc>, id: Option<string>): (i: int)
    ensures -1 <= i < |xs|
    ensures i == -1 <==> forall k :: 0 <= k < |xs| ==> xs[k].id != id
    ensures i >= 0 ==> xs[i].id == id && forall k :: 0 <= k < i ==> xs[k].id != id
    decreases |xs|
  {
    if xs == [] then -1
    else if xs[0].id == id then 0
    else
      var j := FindIndex(xs[1..], id);
      if j == -1 then -1 else j + 1
  }

  /**
   * The list after `const index = findIndex(...); if (index !== -1) xs[index] = d`:
   * the first record with the id of `d` is replaced by `d`.
   */
  function ReplaceFirst(xs: seq<Doc>, d: Doc): (r: seq<Doc>)
    ensures |r| == |xs|
  {
    var i := FindIndex(xs, d.id);
    if i == -1 then xs else xs[i := d]
  }

  /** Only the first record with the id is replaced; every other position keeps its record. */
  lemma ReplaceFirstOnlyFirst(xs: seq<Doc>, d: Doc, k: nat)
    requires k < |xs| && xs[k].id == d.id
    ensures ReplaceFirst(xs, d)[k] == d <== forall m :: 0 <= m < k ==> xs[m].id != d.id
    ensures (exists m :: 0 <= m < k && xs[m].id == d.id) ==> ReplaceFirst(xs, d)[k] == xs[k]
  {
    var i := FindIndex(xs, d.id);
    assert i >= 0;
    if exists m :: 0 <= m < k && xs[m].id == d.id {
      var m :| 0 <= m < k && xs[m].id == d.id;
      assert i <= m;
    } else {
      assert i == k;
    }
  }

  /** Positions whose record carries another id are never touched. */
  lemma ReplaceFirstKeepsOthers(xs: seq<Doc>, d: Doc)
    ensures forall k :: 0 <= k < |xs| && xs[k].id != d.id ==> ReplaceFirst(xs, d)[k] == xs[k]
  {
  }

  /** The payload is stored exactly when some record carries its id; otherwise the list is unchanged. */
  lemma ReplaceFirstStores(xs: seq<Doc>, d: Doc)
    ensures (exists k :: 0 <= k < |xs| && xs[k].id == d.id) ==> d in ReplaceFirst(xs, d)
    ensures (forall k :: 0 <= k < |xs| ==> xs[k].id != d.id) ==> ReplaceFirst(xs, d) == xs
  {
    var i := FindIndex(xs, d.id);
    if i >= 0 {
      assert ReplaceFirst(xs, d)[i] == d;
    }
  }

  /** `xs.filter(x => x._id !== id)` */
  function WithoutId(xs: seq<Doc>, id: Option<string>): (r: seq<Doc>)
    ensures |r| <= |xs|
    ensures forall k :: 0 <= k < |r| ==> r[k].id != id && r[k] in xs
    ensures forall k :: 0 <= k < |xs| && xs[k].id != id ==> xs[k] in r
    decreases |xs|
  {
    if xs == [] then []
    else if xs[0].id != id then [xs[0]] + WithoutId(xs[1..], id)
    else WithoutId(xs[1..], id)
  }

  /** The records kept by the filter stay in their order. */
  lemma {:induction false} WithoutIdKeepsOrder(xs: seq<Doc>, id: Option<string>)
    ensures Subsequence(WithoutId(xs, id), xs)
    decreases |xs|
  {
    if xs != [] {
      WithoutIdKeepsOrder(xs[1..], id);
      if xs[0].id != id {
        assert WithoutId(xs, id)[1..] == WithoutId(xs[1..], id);
      }
    }
  }

  /** Filtering out an id that no record carries changes nothing. */
  lemma {:induction false} WithoutAbsentId(xs: seq<Doc>, id: Option<string>)
    requires forall k :: 0 <= k < |xs| ==> xs[k].id != id
    ensures WithoutId(xs, id) == xs
    decreases |xs|
  {
    if xs != [] {
      WithoutAbsentId(xs[1..], id);
    }
  }

  /** When some record carries the id, the filtered list is strictly shorter. */
  lemma {:induction false} WithoutPresentIdShrinks(xs: seq<Doc>, id: Option<string>)
    requires exists k :: 0 <= k < |xs| && xs[k].id == id
    ensures |WithoutId(xs, id)| < |xs|
    decreases |xs|
  {
    if xs[0].id != id {
      var k :| 0 <= k < |xs| && xs[k].id == id;
      assert xs[1..][k - 1].id == id;
      WithoutPresentIdShrinks(xs[1..], id);
    }
  }

  /** No two records of the list carry the same id. */
  predicate UniqueIds(xs: seq<Doc>) {
    forall i, j :: 0 <= i < j < |xs| ==> xs[i].id != xs[j].id
  }

  /** With unique ids, filtering out an id that is present removes exactly one record. */
  lemma {:induction false} WithoutUniqueIdRemovesOne(xs: seq<Doc>, id: Option<string>)
    requires UniqueIds(xs) && exists k :: 0 <= k < |xs| && xs[k].id == id
    ensures |WithoutId(xs, id)| == |xs| - 1
    decreases |xs|
  {
    var k :| 0 <= k < |xs| && xs[k].id == id;
    if xs[0].id == id {
      assert forall m :: 0 <= m < |xs| - 1 ==> xs[1..][m].id != id by {
        forall m | 0 <= m < |xs| - 1 ensures xs[1..][m].id != id {
          assert xs[1..][m] == xs[m + 1];
        }
      }
      WithoutAbsentId(xs[1..], id);
    } else {
      assert xs[1..][k - 1].id == id;
      assert UniqueIds(xs[1..]) by {
        forall i, j | 0 <= i < j < |xs| - 1 ensures xs[1..][i].id != xs[1..][j].id {
          assert xs[1..][i] == xs[i + 1] && xs[1..][j] == xs[j + 1];
        }
      }
      WithoutUniqueIdRemovesOne(xs[1..], id);
    }
  }

  /** `if (selected?._id === d._id) selected = d` */
  function Synced(selected: Option<Doc>, d: Doc): (r: Option<Doc>)
    ensures r == selected || r == Some(d)
    ensures r == Some(d) <== IdOf(selected) == d.id
    ensures IdOf(selected) != d.id ==> r == selected
  {
    if IdOf(selected) == d.id then Some(d) else selected
  }

  /** `if (selected?._id === id) selected = null` */
  function Cleared(selected: Option<Doc>, id: Option<string>): (r: Option<Doc>)
    ensures r == selected || r.None?
    ensures IdOf(selected) == id ==> r.None?
    ensures IdOf(selected) != id ==> r == selected
  {
    if IdOf(selected) == id then None else selected
  }

  /** Nothing is selected, or the selected record is one of the list. */
  predicate Listed(selected: Option<Doc>, xs: seq<Doc>) {
    selected.None? || selected.value in xs
  }

  /**
   * An update whose payload carries an id keeps a listed selection listed: it
   * is either untouched or becomes the stored payload.
   */
  lemma UpdateKeepsSelectionListed(xs: seq<Doc>, selected: Option<Doc>, d: Doc)
    requires Listed(selected, xs) && d.id.Some?
    ensures Listed(Synced(selected, d), ReplaceFirst(xs, d))
  {
    ReplaceFirstStores(xs, d);
    if selected.Some? {
      var k :| 0 <= k < |xs| && xs[k] == selected.value;
      var r := ReplaceFirst(xs, d);
      if selected.value.id != d.id {
        ReplaceFirstKeepsOthers(xs, d);
        assert r[k] == selected.value;
        assert Synced(selected, d) == selected;
      } else {
        assert xs[k].id == d.id;
        assert Synced(selected, d) == Some(d);
      }
    }
  }

  /**
   * Without an `_id`, the payload of an update becomes the selection when
   * nothing is selected, since `null?._id` and the payload's `_id` are both
   * `undefined`; an empty list stays empty, so the new selection is not listed.
   */
  lemma UpdateWithoutIdSelects(fields: map<string, Json>)
    ensures Synced(None, Doc(None, fields)) == Some(Doc(None, fields))
    ensures !Listed(Synced(None, Doc(None, fields)), ReplaceFirst([], Doc(None, fields)))
  {
  }

  /** A deletion keeps a listed selection listed: it is either kept in the list or cleared. */
  lemma DeleteKeepsSelectionListed(xs: seq<Doc>, selected: Option<Doc>, id: Option<string>)
    requires Listed(selected, xs)
    ensures Listed(Cleared(selected, id), WithoutId(xs, id))
  {
    if selected.Some? && selected.value.id != id {
      var k :| 0 <= k < |xs| && xs[k] == selected.value;
    }
  }

  /** Prepending keeps a listed selection listed. */
  lemma AddKeepsSelectionListed(xs: seq<Doc>, selected: Option<Doc>, d: Doc)
    requires Listed(selected, xs)
    ensures Listed(selected, [d] + xs)
  {
  }

  /**
   * `{ ...base, ...patch }` on plain objects: every key of either, the patch's
   * value where the patch has the key, the base's value elsewhere.
   */
  function Spread(base: map<string, Json>, patch: map<string, Json>): (r: map<string, Json>)
    ensures r.Keys == base.Keys + patch.Keys
    ensures forall k :: k in patch ==> r[k] == patch[k]
    ensures forall k :: k in base && k !in patch ==> r[k] == base[k]
  {
    base + patch
  }

  /** Spreading the same patch twice gives what spreading it once gave. */
  lemma SpreadIdempotent(base: map<string, Json>, patch: map<string, Json>)
    ensures Spread(Spread(base, patch), patch) == Spread(base, patch)
  {
  }

  /** The `pagination` object of a slice. */
  datatype Pagination = Pagination(page: int, limit: int, total: int)

  /** The keys a `setPagination` payload gives (`None`: the key is absent). */
  datatype PaginationPatch = PaginationPatch(page: Option<int>, limit: Option<int>, total: Option<int>)

  /**
   * `{ ...pagination, ...patch }`: the keys the patch gives win, the rest are
   * kept. The contract spells this out key by key, as the body does;
   * `MergePaginationIsSpread` ties it to the object spread, and
   * `MergePaginationIdempotent` states what repeating the merge does.
   */
  function MergePagination(p: Pagination, patch: PaginationPatch): (r: Pagination)
    ensures r.page == (if patch.page.Some? then patch.page.value else p.page)
    ensures r.limit == (if patch.limit.Some? then patch.limit.value else p.limit)
    ensures r.total == (if patch.total.Some? then patch.total.value else p.total)
  {
    Pagination(
      if patch.page.Some? then patch.page.value else p.page,
      if patch.limit.Some? then patch.limit.value else p.limit,
      if patch.total.Some? then patch.total.value else p.total)
  }

  /** The pagination as the plain object the slice holds. */
  function PaginationObject(p: Pagination): (r: map<string, Json>)
    ensures r.Keys == {"page", "limit", "total"}
  {
    map["page" := Num(p.page as real), "limit" := Num(p.limit as real), "total" := Num(p.total as real)]
  }

  /** A patch as the plain object a `setPagination` payload is: only the keys it gives. */
  function PatchObject(patch: PaginationPatch): (r: map<string, Json>)
    ensures ("page" in r <==> patch.page.Some?) && ("limit" in r <==> patch.limit.Some?)
    ensures ("total" in r <==> patch.total.Some?)
  {
    (if patch.page.Some? then map["page" := Num(patch.page.value as real)] else map[])
    + (if patch.limit.Some? then map["limit" := Num(patch.limit.value as real)] else map[])
    + (if patch.total.Some? then map["total" := Num(patch.total.value as real)] else map[])
  }

  /** The merge is the object spread of the payload over the pagination. */
  lemma MergePaginationIsSpread(p: Pagination, patch: PaginationPatch)
    ensures PaginationObject(MergePagination(p, patch)) == Spread(PaginationObject(p), PatchObject(patch))
  {
    var lhs := PaginationObject(MergePagination(p, patch));
    var rhs := Spread(PaginationObject(p), PatchObject(patch));
    assert lhs.Keys == rhs.Keys;
    assert lhs["page"] == rhs["page"];
    assert lhs["limit"] == rhs["limit"];
    assert lhs["total"] == rhs["total"];
  }

  /** Merging the same patch twice gives what merging it once gave; an empty patch changes nothing. */
  lemma MergePaginationIdempotent(p: Pagination, patch: PaginationPatch)
    ensures MergePagination(MergePagination(p, patch), patch) == MergePagination(p, patch)
    ensures MergePagination(p, PaginationPatch(None, None, None)) == p
  {
  }
}
