/** The response store: the `formResponses` table of the local database and
    the queries the form runtime and the sync service run against it. */
module FormResponses {
  import opened Wrappers
  import opened JsText
  import opened JsValue
  import opened FormTypes
  import Table

  /** The property named by `sortBy`. A name outside the record's scalar properties
      (an absent property, or one holding an object such as `data`) makes every
      comparison report "equal". */
  datatype SortKey =
    | ById | ByFormTemplateId | ByCreatedAt | ByUpdatedAt | BySubmittedAt | BySyncedAt
    | ByStatus | ByOfflineCreated | ByOtherProperty(propertyName: string)

  datatype SortDirection = Asc | Desc

  /** The status strings in the order `<` puts them: "draft" < "error" < "submitted" < "syncing". */
  function StatusRank(s: ResponseStatus): int {
    match s
    case Draft => 0
    case Error => 1
    case Submitted => 2
    case Syncing => 3
  }

  /** The string a status is stored as. */
  function StatusText(s: ResponseStatus): string {
    match s
    case Draft => "draft"
    case Error => "error"
    case Submitted => "submitted"
    case Syncing => "syncing"
  }

  /** Comparing ranks is comparing the stored status strings with `<`. */
  lemma StatusRankIsTextOrder(a: ResponseStatus, b: ResponseStatus)
    ensures StatusRank(a) < StatusRank(b) <==> StrLess(StatusText(a), StatusText(b))
  {
    assert StrLess("draft", "error") && StrLess("error", "submitted");
    assert "submitted"[1..] == "ubmitted" && "syncing"[1..] == "yncing";
    assert StrLess("submitted", "syncing");
    StrLessTransitive("draft", "error", "submitted");
    StrLessTransitive("error", "submitted", "syncing");
    StrLessTransitive("draft", "submitted", "syncing");
    if StrLess(StatusText(a), StatusText(b)) && StatusRank(a) >= StatusRank(b) {
      StrLessIrreflexive(StatusText(a));
      if a != b {
        StrLessTransitive(StatusText(a), StatusText(b), StatusText(a));
      }
    }
  }

  /** The value the comparator reads for `sortBy`; None is `undefined`. */
  function SortValue(r: FormResponse, key: SortKey): Option<int> {
    match key
    case ById => r.id
    case ByFormTemplateId => Some(r.formTemplateId)
    case ByCreatedAt => Some(r.createdAt)
    case ByUpdatedAt => Some(r.updatedAt)
    case BySubmittedAt => r.submittedAt
    case BySyncedAt => r.syncedAt
    case ByStatus => Some(StatusRank(r.status))
    case ByOfflineCreated => Some(if r.offlineCreated then 1 else 0)
    case ByOtherProperty(_) => None
  }

  /** The comparator handed to `responses.sort`: 0 when either side is undefined,
      otherwise -1/1 by the values, flipped for a descending sort. */
  function Compare(a: FormResponse, b: FormResponse, key: SortKey, dir: SortDirection): int {
    var av := SortValue(a, key);
    var bv := SortValue(b, key);
    if av.None? || bv.None? then 0
    else if av.value < bv.value then (if dir == Asc then -1 else 1)
    else if av.value > bv.value then (if dir == Asc then 1 else -1)
    else 0
  }

  /** The comparator is antisymmetric: if `a` must move after `b`, then `b` may stay before `a`. */
  lemma CompareFlip(a: FormResponse, b: FormResponse, key: SortKey, dir: SortDirection)
    ensures Compare(a, b, key, dir) > 0 ==> Compare(b, a, key, dir) < 0
    ensures Compare(a, b, key, dir) == 0 ==> Compare(b, a, key, dir) == 0
  {
  }

  // ------------------------------------------------------------------
  // The order `sort` produces. Array.prototype.sort is modelled by insertion
  // sort: each element moves left past the elements the comparator puts after it.

  /** Insert `x` into `s` from the right. */
  function Insert(s: seq<FormResponse>, x: FormResponse, key: SortKey, dir: SortDirection): seq<FormResponse>
    decreases |s|
  {
    if s == [] then [x]
    else if Compare(s[|s| - 1], x, key, dir) > 0 then Insert(s[..|s| - 1], x, key, dir) + [s[|s| - 1]]
    else s + [x]
  }

  function SortedBy(s: seq<FormResponse>, key: SortKey, dir: SortDirection): seq<FormResponse>
    decreases |s|
  {
    if s == [] then [] else Insert(SortedBy(s[..|s| - 1], key, dir), s[|s| - 1], key, dir)
  }

  /** Every neighbouring pair is in comparator order. */
  predicate AdjacentInOrder(s: seq<FormResponse>, key: SortKey, dir: SortDirection) {
    forall i :: 0 < i < |s| ==> Compare(s[i - 1], s[i], key, dir) <= 0
  }

  /** Every pair is in comparator order. */
  predicate InOrder(s: seq<FormResponse>, key: SortKey, dir: SortDirection) {
    forall i, j :: 0 <= i < j < |s| ==> Compare(s[i], s[j], key, dir) <= 0
  }

  /** Every record has a defined value for the sort key. */
  predicate AllKeyed(s: seq<FormResponse>, key: SortKey) {
    forall i :: 0 <= i < |s| ==> SortValue(s[i], key).Some?
  }

  lemma {:induction false} InsertPermutes(s: seq<FormResponse>, x: FormResponse, key: SortKey, dir: SortDirection)
    ensures multiset(Insert(s, x, key, dir)) == multiset(s) + multiset{x}
    decreases |s|
  {
    if s != [] && Compare(s[|s| - 1], x, key, dir) > 0 {
      InsertPermutes(s[..|s| - 1], x, key, dir);
      assert s == s[..|s| - 1] + [s[|s| - 1]];
    }
  }

  /** Sorting reorders the records and neither drops nor duplicates any. */
  lemma {:induction false} SortedByPermutes(s: seq<FormResponse>, key: SortKey, dir: SortDirection)
    ensures multiset(SortedBy(s, key, dir)) == multiset(s)
    decreases |s|
  {
    if s != [] {
      SortedByPermutes(s[..|s| - 1], key, dir);
      InsertPermutes(SortedBy(s[..|s| - 1], key, dir), s[|s| - 1], key, dir);
      assert s == s[..|s| - 1] + [s[|s| - 1]];
    }
  }

  lemma {:induction false} InsertAdjacent(s: seq<FormResponse>, x: FormResponse, key: SortKey, dir: SortDirection)
    requires AdjacentInOrder(s, key, dir)
    ensures AdjacentInOrder(Insert(s, x, key, dir), key, dir)
    ensures |Insert(s, x, key, dir)| == |s| + 1
    ensures s != [] ==> Insert(s, x, key, dir)[|s|] == (if Compare(s[|s| - 1], x, key, dir) > 0 then s[|s| - 1] else x)
    decreases |s|
  {
    if s != [] && Compare(s[|s| - 1], x, key, dir) > 0 {
      var front := s[..|s| - 1];
      InsertAdjacent(front, x, key, dir);
      var r := Insert(front, x, key, dir);
      CompareFlip(s[|s| - 1], x, key, dir);
      if front != [] {
        assert Compare(front[|front| - 1], s[|s| - 1], key, dir) <= 0;
      }
      assert r[|r| - 1] == x || r[|r| - 1] == front[|front| - 1];
    }
  }

  /** The sorted order has every neighbouring pair in comparator order, for any data. */
  lemma {:induction false} SortedByAdjacent(s: seq<FormResponse>, key: SortKey, dir: SortDirection)
    ensures AdjacentInOrder(SortedBy(s, key, dir), key, dir)
    ensures |SortedBy(s, key, dir)| == |s|
    decreases |s|
  {
    if s != [] {
      SortedByAdjacent(s[..|s| - 1], key, dir);
      InsertAdjacent(SortedBy(s[..|s| - 1], key, dir), s[|s| - 1], key, dir);
    }
  }

  lemma CompareTransitive(a: FormResponse, b: FormResponse, c: FormResponse, key: SortKey, dir: SortDirection)
    requires SortValue(a, key).Some? && SortValue(b, key).Some? && SortValue(c, key).Some?
    requires Compare(a, b, key, dir) <= 0 && Compare(b, c, key, dir) <= 0
    ensures Compare(a, c, key, dir) <= 0
  {
  }

  lemma {:induction false} AdjacentIsInOrder(s: seq<FormResponse>, key: SortKey, dir: SortDirection)
    requires AllKeyed(s, key) && AdjacentInOrder(s, key, dir)
    ensures InOrder(s, key, dir)
    decreases |s|
  {
    if |s| > 1 {
      var n := |s|;
      var front := s[..n - 1];
      assert AllKeyed(front, key) by {
        forall i | 0 <= i < |front| ensures SortValue(front[i], key).Some? {
          assert front[i] == s[i];
        }
      }
      assert AdjacentInOrder(front, key, dir) by {
        forall i | 0 < i < |front| ensures Compare(front[i - 1], front[i], key, dir) <= 0 {
          assert front[i - 1] == s[i - 1] && front[i] == s[i];
        }
      }
      AdjacentIsInOrder(front, key, dir);
      forall i, j | 0 <= i < j < n
        ensures Compare(s[i], s[j], key, dir) <= 0
      {
        if j < n - 1 {
          assert front[i] == s[i] && front[j] == s[j];
        } else if i < n - 2 {
          assert Compare(front[i], front[n - 2], key, dir) <= 0;
          CompareTransitive(s[i], s[n - 2], s[n - 1], key, dir);
        }
      }
    }
  }

  lemma KeyedPermutation(s: seq<FormResponse>, t: seq<FormResponse>, key: SortKey)
    requires multiset(s) == multiset(t) && AllKeyed(s, key)
    ensures AllKeyed(t, key)
  {
    forall i | 0 <= i < |t| ensures SortValue(t[i], key).Some? {
      assert t[i] in multiset(s);
    }
  }

  /** When every record has the sort key (createdAt, updatedAt, status, ... always do),
      the sorted records are in key order: ascending for Asc, descending for Desc. */
  lemma SortedByInOrder(s: seq<FormResponse>, key: SortKey, dir: SortDirection)
    requires AllKeyed(s, key)
    ensures InOrder(SortedBy(s, key, dir), key, dir)
    ensures multiset(SortedBy(s, key, dir)) == multiset(s)
  {
    SortedByPermutes(s, key, dir);
    SortedByAdjacent(s, key, dir);
    KeyedPermutation(s, SortedBy(s, key, dir), key);
    AdjacentIsInOrder(SortedBy(s, key, dir), key, dir);
  }

  /** `responses.sort(comparator)` on the array in place. */
  method SortInPlace(a: array<FormResponse>, key: SortKey, dir: SortDirection)
    modifies a
    ensures a[..] == SortedBy(old(a[..]), key, dir)
  {
    ghost var input := a[..];
    var i := 0;
    while i < a.Length
      invariant 0 <= i <= a.Length
      invariant a[..i] == SortedBy(input[..i], key, dir)
      invariant a[i..] == input[i..]
    {
      ghost var before := a[..];
      assert before[..i] == SortedBy(input[..i], key, dir) && before[i] == input[i];
      InsertInPlace(a, i, key, dir);
      SortedByStep(input, i, key, dir);
      assert a[..i + 1] == Insert(before[..i], before[i], key, dir);
      assert a[i + 1..] == before[i + 1..];
      i := i + 1;
    }
    assert input[..a.Length] == input;
  }

  lemma SortedByStep(s: seq<FormResponse>, i: nat, key: SortKey, dir: SortDirection)
    requires i < |s|
    ensures SortedBy(s[..i + 1], key, dir) == Insert(SortedBy(s[..i], key, dir), s[i], key, dir)
  {
    assert s[..i + 1][..i] == s[..i];
  }

  /** One pass of the sort: moves `a[i]` left past the elements of the sorted
      prefix `a[..i]` that the comparator puts after it. */
  method InsertInPlace(a: array<FormResponse>, i: nat, key: SortKey, dir: SortDirection)
    requires i < a.Length
    modifies a
    ensures a[..i + 1] == Insert(old(a[..i]), old(a[i]), key, dir)
    ensures a[i + 1..] == old(a[i + 1..])
  {
    ghost var prefix := a[..i];
    ghost var x := a[i];
    ghost var tail := a[i + 1..];
    var j := i;
    while j > 0 && Compare(a[j - 1], a[j], key, dir) > 0
      invariant 0 <= j <= i
      invariant a[j] == x
      invariant a[i + 1..] == tail
      invariant Insert(prefix, x, key, dir) == Insert(a[..j], x, key, dir) + a[j + 1..i + 1]
    {
      ghost var before := a[..];
      a[j - 1], a[j] := a[j], a[j - 1];
      SwapKeepsInsert(before, a[..], prefix, x, i, j, key, dir);
      j := j - 1;
    }
    InsertDone(a[..], prefix, x, i, j, key, dir);
  }

  /** When the loop of `InsertInPlace` stops, the prefix holds the insertion. */
  lemma InsertDone(s: seq<FormResponse>, prefix: seq<FormResponse>, x: FormResponse, i: nat, j: nat,
                   key: SortKey, dir: SortDirection)
    requires j <= i < |s| && s[j] == x
    requires j == 0 || Compare(s[j - 1], x, key, dir) <= 0
    requires Insert(prefix, x, key, dir) == Insert(s[..j], x, key, dir) + s[j + 1..i + 1]
    ensures s[..i + 1] == Insert(prefix, x, key, dir)
  {
    InsertStops(s[..j], x, key, dir);
    assert s[..i + 1] == s[..j] + [x] + s[j + 1..i + 1];
  }

  /** The swap of `InsertInPlace` keeps its loop invariant. */
  lemma SwapKeepsInsert(before: seq<FormResponse>, after: seq<FormResponse>, prefix: seq<FormResponse>,
                        x: FormResponse, i: nat, j: nat, key: SortKey, dir: SortDirection)
    requires 0 < j <= i < |before| == |after|
    requires before[j] == x && Compare(before[j - 1], x, key, dir) > 0
    requires after == before[j - 1 := x][j := before[j - 1]]
    requires Insert(prefix, x, key, dir) == Insert(before[..j], x, key, dir) + before[j + 1..i + 1]
    ensures after[j - 1] == x && after[i + 1..] == before[i + 1..]
    ensures Insert(prefix, x, key, dir) == Insert(after[..j - 1], x, key, dir) + after[j..i + 1]
  {
    SwapShape(before, after, x, i, j);
    var front, moved, rest := before[..j - 1], before[j - 1], before[j + 1..i + 1];
    InsertMovesLeft(before[..j], x, key, dir);
    assert before[..j][..j - 1] == front && before[..j][j - 1] == moved;
    var ins := Insert(front, x, key, dir);
    assert (ins + [moved]) + rest == ins + ([moved] + rest);
  }

  /** How the swap rearranges the array's contents. */
  lemma SwapShape(before: seq<FormResponse>, after: seq<FormResponse>, x: FormResponse, i: nat, j: nat)
    requires 0 < j <= i < |before| == |after|
    requires after == before[j - 1 := x][j := before[j - 1]]
    ensures after[j - 1] == x && after[i + 1..] == before[i + 1..]
    ensures after[..j - 1] == before[..j - 1]
    ensures after[j..i + 1] == [before[j - 1]] + before[j + 1..i + 1]
  {
  }

  lemma InsertMovesLeft(s: seq<FormResponse>, x: FormResponse, key: SortKey, dir: SortDirection)
    requires s != [] && Compare(s[|s| - 1], x, key, dir) > 0
    ensures Insert(s, x, key, dir) == Insert(s[..|s| - 1], x, key, dir) + [s[|s| - 1]]
  {
  }

  lemma InsertStops(s: seq<FormResponse>, x: FormResponse, key: SortKey, dir: SortDirection)
    requires s == [] || Compare(s[|s| - 1], x, key, dir) <= 0
    ensures Insert(s, x, key, dir) == s + [x]
  {
  }

  // ------------------------------------------------------------------
  // Queries

  datatype ResponsePage = ResponsePage(responses: seq<FormResponse>, total: nat, totalPages: Table.PageCount, currentPage: int)

  /** The sync-eligibility predicate of `getUnsyncedResponses`. */
  predicate IsUnsynced(r: FormResponse) {
    r.offlineCreated && (r.status == Submitted || r.status == Error)
  }

  predicate IsDraftOf(r: FormResponse, formTemplateId: int) {
    r.formTemplateId == formTemplateId && r.status == Draft
  }

  /** The optional template-id and status filters of `getFormResponsesPage`. */
  predicate MatchesFilters(r: FormResponse, formTemplateId: Option<int>, status: Option<ResponseStatus>) {
    (formTemplateId.None? || r.formTemplateId == formTemplateId.value) &&
    (status.None? || r.status == status.value)
  }

  /** The rows a filtered page query sees, in primary-key order. */
  function FilteredRows(rows: map<nat, FormResponse>, n: nat, formTemplateId: Option<int>, status: Option<ResponseStatus>): seq<FormResponse> {
    Table.Scan(rows, n, (r: FormResponse) => MatchesFilters(r, formTemplateId, status))
  }

  /** The filtered rows are exactly the stored rows that match both filters, so `total`
      counts the matching rows. */
  lemma FilteredRowsExact(rows: map<nat, FormResponse>, n: nat, formTemplateId: Option<int>, status: Option<ResponseStatus>)
    requires forall k :: k in rows ==> k < n
    ensures forall r :: r in FilteredRows(rows, n, formTemplateId, status) <==>
              r in rows.Values && MatchesFilters(r, formTemplateId, status)
  {
    forall r ensures r in FilteredRows(rows, n, formTemplateId, status) <==>
              r in rows.Values && MatchesFilters(r, formTemplateId, status) {
      Table.ScanExact(rows, n, (r: FormResponse) => MatchesFilters(r, formTemplateId, status), r);
    }
  }

  /** The page `getFormResponsesPage` returns for the given filtered rows. */
  function PageOf(filtered: seq<FormResponse>, page: int, pageSize: int, key: SortKey, dir: SortDirection): seq<FormResponse> {
    var offset := (page - 1) * pageSize;
    Slice(SortedBy(filtered, key, dir), offset, offset + pageSize)
  }

  /** For page >= 1 and pageSize >= 0 the page is the window
      [(page-1)*pageSize, (page-1)*pageSize + pageSize) of the sorted filtered rows:
      at most pageSize records, each one of the filtered rows. */
  lemma PageWindow(filtered: seq<FormResponse>, page: int, pageSize: int, key: SortKey, dir: SortDirection)
    requires page >= 1 && pageSize >= 0
    ensures var sorted := SortedBy(filtered, key, dir);
            var offset := (page - 1) * pageSize;
            PageOf(filtered, page, pageSize, key, dir) == sorted[Min(offset, |sorted|)..Min(offset + pageSize, |sorted|)]
    ensures |PageOf(filtered, page, pageSize, key, dir)| <= pageSize
    ensures forall r :: r in PageOf(filtered, page, pageSize, key, dir) ==> r in filtered
  {
    var sorted := SortedBy(filtered, key, dir);
    var offset := (page - 1) * pageSize;
    NonNegativeProduct(page - 1, pageSize);
    SliceWindow(sorted, offset, offset + pageSize);
    SortedByPermutes(filtered, key, dir);
    var pg := PageOf(filtered, page, pageSize, key, dir);
    assert pg == Slice(sorted, offset, offset + pageSize);
    forall r | r in pg ensures r in filtered {
      assert r in sorted;
      assert r in multiset(filtered);
    }
  }

  lemma NonNegativeProduct(a: int, b: int)
    requires a >= 0 && b >= 0
    ensures a * b >= 0
  {
  }

  class ResponseStore {
    /** The stored records keyed by their auto-incremented id. */
    var rows: map<nat, FormResponse>
    /** The next id the auto-increment key generator hands out (ids are never reused). */
    var nextId: nat

    ghost predicate Valid()
      reads this
    {
      nextId >= 1 &&
      forall k :: k in rows ==> 1 <= k < nextId && rows[k].id == Some(k)
    }

    constructor ()
      ensures Valid() && rows == map[] && nextId == 1
    {
      rows := map[];
      nextId := 1;
    }

    /** `createFormResponse`: stores the record with both timestamps set to `now`
        and returns the new id. */
    method CreateFormResponse(response: FormResponse, now: int) returns (id: nat)
      requires Valid()
      requires response.id.None?
      modifies this
      ensures Valid()
      ensures id == old(nextId) && id !in old(rows) && id >= 1
      ensures rows == old(rows)[id := response.(id := Some(id), createdAt := now, updatedAt := now)]
      ensures nextId == id + 1
    {
      id := nextId;
      rows := rows[id := response.(id := Some(id), createdAt := now, updatedAt := now)];
      nextId := nextId + 1;
    }

    /** `updateFormResponse`: merges the supplied properties and `updatedAt = now` into
        the row; returns the number of rows updated (0 for a missing id). */
    method UpdateFormResponse(id: nat, patch: ResponsePatch, now: int) returns (updated: nat)
      requires Valid()
      modifies this
      ensures Valid() && nextId == old(nextId)
      ensures id in old(rows) ==> updated == 1 && rows == old(rows)[id := ApplyResponsePatch(old(rows)[id], patch, now)]
      ensures id !in old(rows) ==> updated == 0 && rows == old(rows)
    {
      if id in rows {
        rows := rows[id := ApplyResponsePatch(rows[id], patch, now)];
        updated := 1;
      } else {
        updated := 0;
      }
    }

    /** `submitFormResponse`: status 'submitted', `submittedAt = updatedAt = now`. */
    method SubmitFormResponse(id: nat, now: int) returns (updated: nat)
      requires Valid()
      modifies this
      ensures Valid() && nextId == old(nextId)
      ensures id in old(rows) ==>
                updated == 1 &&
                rows == old(rows)[id := old(rows)[id].(status := Submitted, submittedAt := Some(now), updatedAt := now)]
      ensures id !in old(rows) ==> updated == 0 && rows == old(rows)
    {
      updated := UpdateFormResponse(id, NoResponseChange.(status := Set(Submitted), submittedAt := Set(Some(now))), now);
    }

    /** `deleteFormResponse`: removes the row if present. */
    method DeleteFormResponse(id: nat)
      requires Valid()
      modifies this
      ensures Valid() && nextId == old(nextId)
      ensures rows == old(rows) - {id}
    {
      rows := rows - {id};
    }

    /** `markResponseAsSynced`: `offlineCreated = false`, `syncedAt = updatedAt = now`. */
    method MarkResponseAsSynced(id: nat, now: int) returns (updated: nat)
      requires Valid()
      modifies this
      ensures Valid() && nextId == old(nextId)
      ensures id in old(rows) ==>
                updated == 1 &&
                rows == old(rows)[id := old(rows)[id].(offlineCreated := false, syncedAt := Some(now), updatedAt := now)]
      ensures id !in old(rows) ==> updated == 0 && rows == old(rows)
    {
      updated := UpdateFormResponse(id, NoResponseChange.(offlineCreated := Set(false), syncedAt := Set(Some(now))), now);
    }

    /** `getFormResponseById`: the row, or nothing for a missing id. */
    method GetFormResponseById(id: nat) returns (r: Option<FormResponse>)
      requires Valid()
      ensures r.Some? <==> id in rows
      ensures r.Some? ==> r.value == rows[id] && r.value.id == Some(id)
    {
      r := if id in rows then Some(rows[id]) else None;
    }

    /** `getAllFormResponses`: every row, in id order. */
    method GetAllFormResponses() returns (result: seq<FormResponse>)
      requires Valid()
      ensures forall r :: r in result <==> r in rows.Values
      ensures |result| == |rows|
      ensures forall i :: 0 <= i < |result| ==> result[i].id.Some?
      ensures forall i, j :: 0 <= i < j < |result| ==> result[i].id.value < result[j].id.value
    {
      result := Table.Scan(rows, nextId, (r: FormResponse) => true);
      forall r ensures r in result <==> r in rows.Values {
        Table.ScanExact(rows, nextId, (r: FormResponse) => true, r);
      }
      Table.ScanAll(rows, nextId, (r: FormResponse) => true);
    }

    /** `getResponsesByTemplateId`: the rows of one template, in id order. */
    method GetResponsesByTemplateId(formTemplateId: int) returns (result: seq<FormResponse>)
      requires Valid()
      ensures forall r :: r in result <==> r in rows.Values && r.formTemplateId == formTemplateId
      ensures forall i :: 0 <= i < |result| ==> result[i].id.Some?
      ensures forall i, j :: 0 <= i < j < |result| ==> result[i].id.value < result[j].id.value
    {
      result := Table.Scan(rows, nextId, (r: FormResponse) => r.formTemplateId == formTemplateId);
      forall r ensures r in result <==> r in rows.Values && r.formTemplateId == formTemplateId {
        Table.ScanExact(rows, nextId, (r: FormResponse) => r.formTemplateId == formTemplateId, r);
      }
    }

    /** `getDraftResponsesByTemplateId`: exactly the drafts of one template, in id order. */
    method GetDraftResponsesByTemplateId(formTemplateId: int) returns (result: seq<FormResponse>)
      requires Valid()
      ensures forall r :: r in result <==> r in rows.Values && IsDraftOf(r, formTemplateId)
      ensures forall i :: 0 <= i < |result| ==> result[i].id.Some?
      ensures forall i, j :: 0 <= i < j < |result| ==> result[i].id.value < result[j].id.value
    {
      var p := (r: FormResponse) => IsDraftOf(r, formTemplateId);
      var ks := Table.MatchingKeys(rows, nextId, p);
      result := Table.RowsAt(rows, ks);
      forall r ensures r in result <==> r in rows.Values && IsDraftOf(r, formTemplateId) {
        Table.ScanExact(rows, nextId, p, r);
      }
    }

    /** `getUnsyncedResponses`: exactly the offline-created rows whose status is
        'submitted' or 'error', in id order. */
    method GetUnsyncedResponses() returns (result: seq<FormResponse>)
      requires Valid()
      ensures forall r :: r in result <==> r in rows.Values && IsUnsynced(r)
      ensures forall i :: 0 <= i < |result| ==> result[i].id.Some? && result[i].id.value in rows
      ensures forall i, j :: 0 <= i < j < |result| ==> result[i].id.value < result[j].id.value
    {
      var ks := Table.MatchingKeys(rows, nextId, IsUnsynced);
      result := Table.RowsAt(rows, ks);
      forall r ensures r in result <==> r in rows.Values && IsUnsynced(r) {
        Table.ScanExact(rows, nextId, IsUnsynced, r);
      }
    }

    /** `getFormResponsesPage`: filter by the optional template id and status, count,
        sort in place, then slice out the requested page. */
    method GetFormResponsesPage(page: int := 1, pageSize: int := 10, formTemplateId: Option<int> := None,
                                status: Option<ResponseStatus> := None, sortBy: SortKey := ByUpdatedAt,
                                sortDirection: SortDirection := Desc)
      returns (result: ResponsePage)
      requires Valid()
      ensures var filtered := FilteredRows(rows, nextId, formTemplateId, status);
              && result.total == |filtered|
              && result.totalPages == Table.PageCountOf(|filtered|, pageSize)
              && result.responses == PageOf(filtered, page, pageSize, sortBy, sortDirection)
              && result.currentPage == page
    {
      var offset := (page - 1) * pageSize;
      var responses := FilteredRows(rows, nextId, formTemplateId, status);
      var total := |responses|;
      var totalPages := Table.PageCountOf(total, pageSize);
      var a := new FormResponse[|responses|](i requires 0 <= i < |responses| => responses[i]);
      assert a[..] == responses;
      SortInPlace(a, sortBy, sortDirection);
      var sorted := a[..];
      result := ResponsePage(Slice(sorted, offset, offset + pageSize), total, totalPages, page);
    }
  }

  /** After `markResponseAsSynced` a record no longer satisfies the unsynced scan, and
      marking it again yields the same record up to the two timestamps. */
  lemma MarkSyncedLeavesScan(r: FormResponse, t1: int, t2: int)
    ensures !IsUnsynced(r.(offlineCreated := false, syncedAt := Some(t1), updatedAt := t1))
    ensures var once := r.(offlineCreated := false, syncedAt := Some(t1), updatedAt := t1);
            var twice := once.(offlineCreated := false, syncedAt := Some(t2), updatedAt := t2);
            twice.status == once.status && twice.data == once.data &&
            twice == once.(syncedAt := Some(t2), updatedAt := t2)
  {
  }
}
