/** The template store: the `formTemplates` table and its administrative
    operations (create, update, delete, duplicate, import, search, page). */
module FormTemplates {
  import opened Wrappers
  import opened JsText
  import opened FormTypes
  import Table

  /** The index `orderBy(sortBy)` walks. Only `id`, `name`, `createdAt` and `updatedAt`
      are indexed; any other property makes the query fail. */
  datatype TemplateSortKey = ById | ByName | ByCreatedAt | ByUpdatedAt | Unindexed(propertyName: string)

  datatype SortDirection = Asc | Desc

  function IdOf(t: FormTemplate): nat {
    if t.id.Some? then t.id.value else 0
  }

  /** Index order: by the indexed value, ties broken by the primary key. */
  predicate IndexLess(a: FormTemplate, b: FormTemplate, key: TemplateSortKey) {
    match key
    case ByName => StrLess(a.name, b.name) || (a.name == b.name && IdOf(a) < IdOf(b))
    case ByCreatedAt => a.createdAt < b.createdAt || (a.createdAt == b.createdAt && IdOf(a) < IdOf(b))
    case ByUpdatedAt => a.updatedAt < b.updatedAt || (a.updatedAt == b.updatedAt && IdOf(a) < IdOf(b))
    case _ => IdOf(a) < IdOf(b)
  }

  lemma IndexLessTransitive(a: FormTemplate, b: FormTemplate, c: FormTemplate, key: TemplateSortKey)
    requires IndexLess(a, b, key) && IndexLess(b, c, key)
    ensures IndexLess(a, c, key)
  {
    if key.ByName? {
      if StrLess(a.name, b.name) && StrLess(b.name, c.name) {
        StrLessTransitive(a.name, b.name, c.name);
      }
    }
  }

  lemma IndexLessTotal(a: FormTemplate, b: FormTemplate, key: TemplateSortKey)
    requires IdOf(a) != IdOf(b)
    ensures IndexLess(a, b, key) || IndexLess(b, a, key)
  {
    if key.ByName? && a.name != b.name {
      StrLessTotal(a.name, b.name);
    }
  }

  lemma IndexLessIrreflexive(a: FormTemplate, key: TemplateSortKey)
    ensures !IndexLess(a, a, key)
  {
    StrLessIrreflexive(a.name);
  }

  /** Insertion of one row into an index-ordered sequence. */
  function IndexInsert(x: FormTemplate, s: seq<FormTemplate>, key: TemplateSortKey): seq<FormTemplate>
    decreases |s|
  {
    if s == [] then [x]
    else if IndexLess(x, s[0], key) then [x] + s
    else [s[0]] + IndexInsert(x, s[1..], key)
  }

  /** The rows in index order. */
  function IndexOrder(s: seq<FormTemplate>, key: TemplateSortKey): seq<FormTemplate>
    decreases |s|
  {
    if s == [] then [] else IndexInsert(s[0], IndexOrder(s[1..], key), key)
  }

  predicate StrictlyOrdered(s: seq<FormTemplate>, key: TemplateSortKey) {
    forall i, j :: 0 <= i < j < |s| ==> IndexLess(s[i], s[j], key)
  }

  predicate DistinctIds(s: seq<FormTemplate>) {
    forall i, j :: 0 <= i < j < |s| ==> IdOf(s[i]) != IdOf(s[j])
  }

  lemma {:induction false} IndexInsertPermutes(x: FormTemplate, s: seq<FormTemplate>, key: TemplateSortKey)
    ensures multiset(IndexInsert(x, s, key)) == multiset(s) + multiset{x}
    decreases |s|
  {
    if s != [] && !IndexLess(x, s[0], key) {
      IndexInsertPermutes(x, s[1..], key);
      assert s == [s[0]] + s[1..];
    }
  }

  lemma {:induction false} IndexOrderPermutes(s: seq<FormTemplate>, key: TemplateSortKey)
    ensures multiset(IndexOrder(s, key)) == multiset(s)
    decreases |s|
  {
    if s != [] {
      IndexOrderPermutes(s[1..], key);
      IndexInsertPermutes(s[0], IndexOrder(s[1..], key), key);
      assert s == [s[0]] + s[1..];
    }
  }

  lemma {:induction false} IndexInsertOrdered(x: FormTemplate, s: seq<FormTemplate>, key: TemplateSortKey)
    requires StrictlyOrdered(s, key)
    requires forall i :: 0 <= i < |s| ==> IdOf(s[i]) != IdOf(x)
    ensures StrictlyOrdered(IndexInsert(x, s, key), key)
    decreases |s|
  {
    if s != [] {
      if IndexLess(x, s[0], key) {
        forall j | 0 <= j < |s| ensures IndexLess(x, s[j], key) {
          if j > 0 { IndexLessTransitive(x, s[0], s[j], key); }
        }
      } else {
        IndexLessTotal(x, s[0], key);
        IndexInsertOrdered(x, s[1..], key);
        var rest := IndexInsert(x, s[1..], key);
        IndexInsertPermutes(x, s[1..], key);
        forall j | 0 <= j < |rest| ensures IndexLess(s[0], rest[j], key) {
          assert rest[j] in multiset(s[1..]) + multiset{x};
          if rest[j] != x {
            assert rest[j] in s[1..];
          }
        }
      }
    }
  }

  /** With distinct ids, index order is a strict total order: the rows come out
      strictly ascending by (indexed value, id), and none is lost or duplicated. */
  lemma {:induction false} IndexOrderOrdered(s: seq<FormTemplate>, key: TemplateSortKey)
    requires DistinctIds(s)
    ensures StrictlyOrdered(IndexOrder(s, key), key)
    ensures multiset(IndexOrder(s, key)) == multiset(s)
    decreases |s|
  {
    IndexOrderPermutes(s, key);
    if s != [] {
      IndexOrderOrdered(s[1..], key);
      var rest := IndexOrder(s[1..], key);
      forall i | 0 <= i < |rest| ensures IdOf(rest[i]) != IdOf(s[0]) {
        assert rest[i] in multiset(s[1..]);
        var k :| 0 <= k < |s[1..]| && s[1..][k] == rest[i];
        assert s[k + 1] == rest[i];
      }
      IndexInsertOrdered(s[0], rest, key);
    }
  }

  function Reverse<T>(s: seq<T>): (r: seq<T>)
    ensures |r| == |s|
    ensures forall i :: 0 <= i < |s| ==> r[i] == s[|s| - 1 - i]
  {
    seq(|s|, i requires 0 <= i < |s| => s[|s| - 1 - i])
  }

  /** Dexie's `offset(n)` (no-op for n <= 0) followed by `limit(m)` (nothing for m <= 0). */
  function OffsetLimit<T>(s: seq<T>, offset: int, limit: int): (r: seq<T>)
    ensures limit >= 0 ==> |r| <= limit
    ensures 0 <= offset <= |s| ==> r == s[offset..Min(offset + Max(limit, 0), |s|)]
  {
    var skipped := if offset <= 0 then s else if offset >= |s| then [] else s[offset..];
    if limit <= 0 then [] else skipped[..Min(limit, |skipped|)]
  }

  datatype TemplatePage = TemplatePage(templates: seq<FormTemplate>, total: nat, totalPages: Table.PageCount, currentPage: int)

  /** A template matches a search when its lower-cased name or description contains
      the lower-cased query. */
  predicate MatchesQuery(t: FormTemplate, query: string) {
    Includes(ToLower(t.name), ToLower(query)) || Includes(ToLower(t.description), ToLower(query))
  }

  class TemplateStore {
    var rows: map<nat, FormTemplate>
    var nextId: nat

    ghost predicate Valid()
      reads this
    {
      nextId >= 1 &&
      forall k :: k in rows ==> 1 <= k < nextId && rows[k].id == Some(k)
    }

    constructor ()
      ensures Valid() && rows == map[] && nextId == 1
    {
      rows := map[];
      nextId := 1;
    }

    /** The table's `add` for a record that carries no id (as every caller passes it):
        the record is stored under a fresh auto-incremented id, which is returned. */
    method Add(t: FormTemplate) returns (id: nat)
      requires Valid() && t.id.None?
      modifies this
      ensures Valid()
      ensures id == old(nextId) && id !in old(rows) && id >= 1
      ensures rows == old(rows)[id := t.(id := Some(id))]
      ensures nextId == id + 1
    {
      id := nextId;
      rows := rows[id := t.(id := Some(id))];
      nextId := nextId + 1;
    }

    /** `createFormTemplate`: both timestamps set to `now`; returns the fresh id. */
    method CreateFormTemplate(t: FormTemplate, now: int) returns (id: nat)
      requires Valid()
      requires t.id.None?
      modifies this
      ensures Valid() && id == old(nextId) && id !in old(rows) && nextId == id + 1
      ensures rows == old(rows)[id := t.(id := Some(id), createdAt := now, updatedAt := now)]
    {
      id := Add(t.(createdAt := now, updatedAt := now));
    }

    /** `updateFormTemplate`: merges the supplied properties and bumps `updatedAt`;
        returns the number of rows updated (0 for a missing id). */
    method UpdateFormTemplate(id: nat, patch: TemplatePatch, now: int) returns (updated: nat)
      requires Valid()
      modifies this
      ensures Valid() && nextId == old(nextId)
      ensures id in old(rows) ==> updated == 1 && rows == old(rows)[id := ApplyTemplatePatch(old(rows)[id], patch, now)]
      ensures id !in old(rows) ==> updated == 0 && rows == old(rows)
    {
      if id in rows {
        rows := rows[id := ApplyTemplatePatch(rows[id], patch, now)];
        updated := 1;
      } else {
        updated := 0;
      }
    }

    /** `deleteFormTemplate` */
    method DeleteFormTemplate(id: nat)
      requires Valid()
      modifies this
      ensures Valid() && nextId == old(nextId)
      ensures rows == old(rows) - {id}
    {
      rows := rows - {id};
    }

    /** `getFormTemplateById` */
    method GetFormTemplateById(id: nat) returns (t: Option<FormTemplate>)
      requires Valid()
      ensures t.Some? <==> id in rows
      ensures t.Some? ==> t.value == rows[id] && t.value.id == Some(id)
    {
      t := if id in rows then Some(rows[id]) else None;
    }

    /** `getAllFormTemplates`: every row, in id order. */
    method GetAllFormTemplates() returns (result: seq<FormTemplate>)
      requires Valid()
      ensures forall t :: t in result <==> t in rows.Values
      ensures |result| == |rows|
      ensures forall i :: 0 <= i < |result| ==> result[i].id.Some?
      ensures forall i, j :: 0 <= i < j < |result| ==> result[i].id.value < result[j].id.value
    {
      result := Table.Scan(rows, nextId, (t: FormTemplate) => true);
      forall t ensures t in result <==> t in rows.Values {
        Table.ScanExact(rows, nextId, (t: FormTemplate) => true, t);
      }
      Table.ScanAll(rows, nextId, (t: FormTemplate) => true);
    }

    /** `duplicateFormTemplate`: a missing id fails with "Template with ID <id> not found"
        and leaves the table alone; otherwise one copy named "<name> (Copy)" is added
        under a fresh id with fresh timestamps. */
    method DuplicateFormTemplate(id: nat, now: int) returns (result: Result<nat>)
      requires Valid()
      modifies this
      ensures Valid()
      ensures id !in old(rows) ==>
                result == Err("Template with ID " + IntToString(id) + " not found") &&
                rows == old(rows) && nextId == old(nextId)
      ensures id in old(rows) ==>
                && result == Ok(old(nextId))
                && old(nextId) !in old(rows)
                && rows == old(rows)[old(nextId) := old(rows)[id].(id := Some(old(nextId)),
                                                      name := old(rows)[id].name + " (Copy)",
                                                      createdAt := now, updatedAt := now)]
                && nextId == old(nextId) + 1
    {
      var original := GetFormTemplateById(id);
      if original.None? {
        return Err("Template with ID " + IntToString(id) + " not found");
      }
      var t := original.value;
      var newId := Add(t.(id := None, name := t.name + " (Copy)", createdAt := now, updatedAt := now));
      result := Ok(newId);
    }

    /** `importFormTemplateFromJSON`, with `JSON.parse` abstracted: `parsed` is the parsed
        template, or None when the text does not parse. A parse failure reports
        "Invalid template format" and adds nothing; otherwise the template is stored
        under a fresh id, whatever id it carried, with both timestamps reset to `now`. */
    method ImportFormTemplate(parsed: Option<FormTemplate>, now: int) returns (result: Result<nat>)
      requires Valid()
      modifies this
      ensures Valid()
      ensures parsed.None? ==> result == Err("Invalid template format") && rows == old(rows) && nextId == old(nextId)
      ensures parsed.Some? ==>
                && result == Ok(old(nextId))
                && old(nextId) !in old(rows)
                && rows == old(rows)[old(nextId) := parsed.value.(id := Some(old(nextId)), createdAt := now, updatedAt := now)]
                && nextId == old(nextId) + 1
    {
      if parsed.None? {
        return Err("Invalid template format");
      }
      var t := parsed.value;
      var newId := Add(t.(id := None, createdAt := now, updatedAt := now));
      result := Ok(newId);
    }

    /** `searchFormTemplates`: the templates whose name or description contains the
        query, ignoring case, in id order. */
    method SearchFormTemplates(query: string) returns (result: seq<FormTemplate>)
      requires Valid()
      ensures forall t :: t in result <==> t in rows.Values && MatchesQuery(t, query)
      ensures query == "" ==> |result| == |rows|
      ensures forall i :: 0 <= i < |result| ==> result[i].id.Some?
      ensures forall i, j :: 0 <= i < j < |result| ==> result[i].id.value < result[j].id.value
    {
      var p := (t: FormTemplate) => MatchesQuery(t, query);
      result := Table.Scan(rows, nextId, p);
      forall t ensures t in result <==> t in rows.Values && MatchesQuery(t, query) {
        Table.ScanExact(rows, nextId, p, t);
      }
      if query == "" {
        forall k | k in rows ensures p(rows[k]) {
          IncludesEmpty(ToLower(rows[k].name));
        }
        Table.ScanAll(rows, nextId, p);
      }
    }

    /** `getFormTemplatesPage`: `total` counts the whole table; the page is
        `pageSize` rows from `(page-1)*pageSize` of the index order, walked backwards
        for a descending sort. Ordering by a property that is not indexed fails. */
    method GetFormTemplatesPage(page: int := 1, pageSize: int := 10, sortBy: TemplateSortKey := ByUpdatedAt,
                                sortDirection: SortDirection := Desc)
      returns (result: Result<TemplatePage>)
      requires Valid()
      ensures sortBy.Unindexed? <==> result.Err?
      ensures result.Ok? ==>
                var ordered := IndexOrder(Table.Scan(rows, nextId, (t: FormTemplate) => true), sortBy);
                var walked := if sortDirection == Desc then Reverse(ordered) else ordered;
                && result.value.total == |rows|
                && result.value.totalPages == Table.PageCountOf(|rows|, pageSize)
                && result.value.templates == OffsetLimit(walked, (page - 1) * pageSize, pageSize)
                && result.value.currentPage == page
    {
      var offset := (page - 1) * pageSize;
      var all := Table.Scan(rows, nextId, (t: FormTemplate) => true);
      Table.ScanAll(rows, nextId, (t: FormTemplate) => true);
      var total := |all|;
      var totalPages := Table.PageCountOf(total, pageSize);
      if sortBy.Unindexed? {
        return Err("KeyPath " + sortBy.propertyName + " on object store formTemplates is not indexed");
      }
      var collection := IndexOrder(all, sortBy);
      if sortDirection == Desc {
        collection := Reverse(collection);
      }
      result := Ok(TemplatePage(OffsetLimit(collection, offset, pageSize), total, totalPages, page));
    }
  }
}
