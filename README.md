# Offline forms PWA: a Dafny model of its core

The application is a progressive web app for filling in inspection forms offline.
This model covers the following parts of it:

- **Template store** (`lib/formTemplates.ts`): form templates in an IndexedDB table.
  It creates, updates, deletes, duplicates and imports templates, and it searches and pages them.
- **Response store** (`lib/formResponses.ts`): filled-in responses in a second table.
  It handles drafts, submission, sync marking, and paging with filters and sorting.
- **Sample form** (`lib/sampleForm.ts`): seeds the "Equipment Inspection Form" template once.
- **Sync service** (`lib/syncService.ts`): tracks the online state and keeps the sync listeners.
  It marks unsynced responses as synced and reports start, complete and error events.
  It also hands submitted responses to their destinations.
- **Error handler** (`lib/errorHandler.ts`): classifies thrown values as application errors.
  It picks the message shown to the user.
- **Form viewer** (`components/forms/FormViewer.tsx`): one form session.
  It covers field changes, validation, conditional display, widget dispatch and the progress bar.
  It builds device info, saves drafts and submits.
- **Checkbox and file widgets** (`components/forms/fields/CheckboxInput.tsx`, `FileInput.tsx`): the values they emit.
- **Navigation** (`MobileHeader.tsx`, `MobileNavBar.tsx`, `header.tsx`): page titles, active links, the theme switch and the avatar initial.

## Modelling choices

### Stores

- Each Dexie table is a class (`TemplateStore`, `ResponseStore`).
  It holds `rows: map<nat, T>` and the next auto-increment key `nextId`.
  `Valid()` says every key is below `nextId`, the keys start at 1, and each row's `id` is its key.
- A Dexie scan returns rows in primary-key order.
  `Table.Scan` models it as the rows of `Table.MatchingKeys`, the matching keys in ascending order.
  An `orderBy` on an index is `FormTemplates.IndexOrder`: a strict order on (index value, id).
  This is an insertion sort, specified by its permutation and ordering lemmas.

### Sorting and paging

- `getFormResponsesPage` sorts an in-memory array with `Array.prototype.sort`.
  The model writes this as an in-place insertion sort on an `array` (`FormResponses.SortInPlace`).
  The sort is proved equal to the functional `SortedBy`, which is a permutation of its input.
  When every row has the sort key, the result is ordered for the comparator.
- Both page queries keep the source's default arguments: page 1, page size 10, no filters, `updatedAt`, descending.
- `Math.ceil(total / pageSize)` is `Table.PageCountOf`.
  It has a `NotANumber` and an `Infinite` case for a zero page size.

### Sync service

- The service is a class.
  - Its listeners are a sequence of `Listener(id, throws)`.
  - Every event it emits is appended to `events`.
  - Every listener invocation is appended to `deliveries`, in call order.
  - A throwing listener is caught and does not stop later listeners.
- Marking a response synced in the store may reject.
  The parameter `failAt` says which mark raises first.
- A destination hand-off fails when the predicate `fails` says so.

### Form session

- The session is a class holding `formData`, `formErrors`, `responseId` and `isOffline`.
- The JavaScript values a field may hold are the datatype `JsValue.Value`.
- `new RegExp(p).test(v)` is the parameter `regexTest`.
  A pattern rule without a value compiles `new RegExp(undefined)`, the empty pattern (`FormViewer.PatternSource`).
- The clock, the user agent, the platform and the geolocation reading are parameters:
  `now`, `userAgent`, `platform` and `position`.

### Behaviour worth noting

- Validation ignores `conditionalDisplay`: a required field that is conditionally hidden still blocks submission.
- When several validation rules fail, the message of the last failing rule is kept.
- A length rule thus replaces the "is required" message.
- There are 17 field types, plus any unrecognised type.
- `handleFieldChange` clears a field's error only when the stored message is non-empty.

## Model

| member | source | states |
|---|---|---|
| Table.MatchingKeys | lib/formResponses.ts:150-157 | the keys of the rows below `n` that satisfy the predicate: each one satisfies it, every such key is present, and they ascend (Dexie's primary-key scan order) |
| Table.RowsAt | lib/formResponses.ts:8-10 | the rows at the given keys, position for position |
| Table.Scan | lib/formResponses.ts:150-157 | definition; its properties are in `ScanExact` and `ScanAll`; its key order comes from `MatchingKeys` |
| Table.ScanExact | lib/formResponses.ts:15-20 | a row is in the scan iff it is stored and satisfies the filter |
| Table.ScanAll | lib/formResponses.ts:8-10 | a scan whose predicate holds for every row returns as many rows as the table has |
| Table.DistinctSeqCard | lib/formResponses.ts:150-157 | strictly ascending keys are distinct, so the set they form has one element per position |
| Table.PageCountOf | lib/formResponses.ts:57-58 | for a positive page size, the least count of pages that covers `total` (ceiling); 0 pages for no rows |
| FormTypes.ResponsePatchFrame | lib/formResponses.ts:119-126 | an update keeps the id, sets `updatedAt` to now, applies each set field and keeps each unset one |
| FormTypes.ApplyResponsePatch | lib/formResponses.ts:119-126 | definition; its properties are in `ResponsePatchFrame`, `FormViewer.DraftPatchChangesOnlyData` and `FormViewer.SubmitPatchMarksSubmitted` |
| FormTypes.ApplyTemplatePatch | lib/formTemplates.ts:86-93 | definition; its properties are in `TemplatePatchFrame` |
| FormTypes.TemplatePatchFrame | lib/formTemplates.ts:86-93 | a template update keeps the id, sets `updatedAt` to now, applies each supplied field and keeps each omitted one; an empty patch changes only `updatedAt` |
| FormResponses.StatusRank | lib/formResponses.ts:67-68 | definition; its properties are in `StatusRankIsTextOrder` |
| FormResponses.StatusText | db/database.config.ts:16 | definition (the stored status strings); its properties are in `StatusRankIsTextOrder` |
| FormResponses.StatusRankIsTextOrder | lib/formResponses.ts:67-68 | one rank is below another iff the first status string is below the second under `<`, so ranking statuses sorts them as the source does |
| FormResponses.SortValue | lib/formResponses.ts:62-65 | definition; its properties are in `CompareFlip`, `CompareTransitive` and `SortedByInOrder`, where a property a row lacks reads as `undefined` |
| FormResponses.Compare | lib/formResponses.ts:61-70 | definition; its properties are in `CompareFlip` and `CompareTransitive` |
| FormResponses.SortedBy | lib/formResponses.ts:61-70 | definition; its properties are in `SortedByPermutes`, `SortedByAdjacent` and `SortedByInOrder` |
| FormResponses.Insert | lib/formResponses.ts:61-70 | definition; its properties are in `InsertPermutes`, `InsertAdjacent`, `InsertMovesLeft` and `InsertStops` |
| FormResponses.CompareFlip | lib/formResponses.ts:61-70 | the sort comparator is antisymmetric: a positive comparison reverses to a negative one, and equality is symmetric |
| FormResponses.CompareTransitive | lib/formResponses.ts:61-70 | on rows that have the sort key, "not after" is transitive |
| FormResponses.InsertPermutes | lib/formResponses.ts:61-70 | inserting one row adds exactly that row to the multiset |
| FormResponses.SortedByPermutes | lib/formResponses.ts:61-70 | the sorted page input is a permutation of the filtered rows |
| FormResponses.InsertAdjacent | lib/formResponses.ts:61-70 | insertion keeps neighbours in comparator order, grows the list by one, and puts the larger of the old last row and the new row last |
| FormResponses.SortedByAdjacent | lib/formResponses.ts:61-70 | the sorted list has every neighbouring pair in order and the input's length |
| FormResponses.AdjacentIsInOrder | lib/formResponses.ts:61-70 | when every row has the key, neighbour order implies that every earlier row is not after every later one |
| FormResponses.KeyedPermutation | lib/formResponses.ts:61-70 | a permutation of rows that all have the sort key still all have it |
| FormResponses.SortedByInOrder | lib/formResponses.ts:61-70 | sorted rows that all have the key are fully ordered and are a permutation of the input |
| FormResponses.SortedByStep | lib/formResponses.ts:61-70 | sorting one more element is inserting it into the sorted prefix |
| FormResponses.SortInPlace | lib/formResponses.ts:61-70 | the array afterwards holds `SortedBy` of its old contents |
| FormResponses.InsertInPlace | lib/formResponses.ts:61-70 | one insertion pass over the array: the prefix up to `i` becomes the insertion of `a[i]` into the old prefix, and the rest is unchanged |
| FormResponses.SwapKeepsInsert | lib/formResponses.ts:61-70 | one swap of the insertion pass preserves the relation to the functional insertion |
| FormResponses.InsertMovesLeft | lib/formResponses.ts:61-70 | a new row that sorts before the last row goes in front of it |
| FormResponses.InsertStops | lib/formResponses.ts:61-70 | a new row not before the last row is appended |
| FormResponses.FilteredRows | lib/formResponses.ts:44-54 | definition; its properties are in `FilteredRowsExact` |
| FormResponses.MatchesFilters | lib/formResponses.ts:44-54 | definition; its properties are in `FilteredRowsExact` |
| FormResponses.FilteredRowsExact | lib/formResponses.ts:44-54 | the filtered list holds exactly the stored rows matching the optional template id and status |
| FormResponses.PageOf | lib/formResponses.ts:38-73 | definition; its properties are in `PageWindow` and `ResponseStore.GetFormResponsesPage` |
| FormResponses.IsUnsynced | lib/formResponses.ts:152-155 | definition; its properties are in `ResponseStore.GetUnsyncedResponses` and `MarkSyncedLeavesScan` |
| FormResponses.IsDraftOf | lib/formResponses.ts:94-97 | definition; its properties are in `ResponseStore.GetDraftResponsesByTemplateId` |
| FormResponses.PageWindow | lib/formResponses.ts:73 | for page >= 1, the page is the slice from `(page-1)*pageSize` of the sorted rows, has at most `pageSize` rows, and every row is a filtered row |
| FormResponses.MarkSyncedLeavesScan | lib/formResponses.ts:162-169 | a row marked synced no longer counts as unsynced; marking it twice differs from marking once only in the two timestamps |
| FormResponses.ResponseStore.constructor | lib/formResponses.ts:8-10 | the table starts empty with next key 1 |
| FormResponses.ResponseStore.CreateFormResponse | lib/formResponses.ts:104-114 | the row is stored under the old next key, with both timestamps now; the next key advances; the id returned is new |
| FormResponses.ResponseStore.UpdateFormResponse | lib/formResponses.ts:119-126 | an existing row becomes the patch applied at now, with count 1; a missing id changes nothing, with count 0 |
| FormResponses.ResponseStore.SubmitFormResponse | lib/formResponses.ts:131-138 | the row becomes submitted with `submittedAt` and `updatedAt` both now; a missing id changes nothing |
| FormResponses.ResponseStore.DeleteFormResponse | lib/formResponses.ts:143-145 | the key is removed, and a missing key is no error |
| FormResponses.ResponseStore.MarkResponseAsSynced | lib/formResponses.ts:162-169 | `offlineCreated` false, and `syncedAt` and `updatedAt` now, on that row only |
| FormResponses.ResponseStore.GetFormResponseById | lib/formResponses.ts:86-88 | found iff the key is stored, and then that row, carrying its own id |
| FormResponses.ResponseStore.GetAllFormResponses | lib/formResponses.ts:8-10 | every stored row once, and nothing else, in ascending id order (the primary-key order of `toArray()`) |
| FormResponses.ResponseStore.GetResponsesByTemplateId | lib/formResponses.ts:15-20 | exactly the stored rows of that template, each once, in ascending id order |
| FormResponses.ResponseStore.GetDraftResponsesByTemplateId | lib/formResponses.ts:93-99 | exactly the drafts of that template, in ascending id order |
| FormResponses.ResponseStore.GetUnsyncedResponses | lib/formResponses.ts:150-157 | exactly the rows that were created offline and whose status is submitted or error, in ascending id order, each with a stored id |
| FormResponses.ResponseStore.GetFormResponsesPage | lib/formResponses.ts:25-81 | the parameters default as the source's do (page 1, size 10, no filters, `updatedAt`, descending), so a call that passes only page, size and filters is sorted by `updatedAt` descending; `total` counts the filtered rows; `totalPages` is their page count; the page is the window of the sorted filtered rows; `currentPage` echoes the request |
| FormTemplates.IndexLess | db/database.config.ts:15 | definition; its properties are in `IndexLessTransitive`, `IndexLessTotal` and `IndexLessIrreflexive` |
| FormTemplates.IndexLessTransitive | db/database.config.ts:15 | the (index value, id) order is transitive |
| FormTemplates.IndexLessTotal | db/database.config.ts:15 | rows with different ids are comparable |
| FormTemplates.IndexLessIrreflexive | db/database.config.ts:15 | no row precedes itself |
| FormTemplates.IndexInsertPermutes | lib/formTemplates.ts:32-35 | index insertion adds exactly one row |
| FormTemplates.IndexOrderPermutes | lib/formTemplates.ts:32-35 | an `orderBy` walk holds the same rows as the table |
| FormTemplates.IndexInsertOrdered | lib/formTemplates.ts:32-35 | inserting a row with a new id into an ordered list keeps it strictly ordered |
| FormTemplates.IndexOrderOrdered | lib/formTemplates.ts:32-35 | with distinct ids the `orderBy` walk is strictly ordered by index value, then id, and is a permutation |
| FormTemplates.IndexInsert | lib/formTemplates.ts:32 | definition; its properties are in `IndexInsertPermutes` and `IndexInsertOrdered` |
| FormTemplates.IndexOrder | lib/formTemplates.ts:32 | definition; its properties are in `IndexOrderPermutes` and `IndexOrderOrdered` |
| FormTemplates.Reverse | lib/formTemplates.ts:33-34 | `reverse()` puts position i at position n-1-i |
| FormTemplates.OffsetLimit | lib/formTemplates.ts:37 | at most `limit` rows, the slice from `offset` when the offset lies within the list |
| FormTemplates.TemplateStore.constructor | lib/formTemplates.ts:7-9 | the table starts empty with next key 1 |
| FormTemplates.TemplateStore.Add | lib/formTemplates.ts:121 | `table.add` of a record without an id (every caller passes one): the row is stored under a fresh key, which it carries as its id |
| FormTemplates.TemplateStore.CreateFormTemplate | lib/formTemplates.ts:71-81 | stored under the fresh key with both timestamps now |
| FormTemplates.TemplateStore.UpdateFormTemplate | lib/formTemplates.ts:86-93 | an existing row takes the patch and `updatedAt` now, with count 1; a missing id changes nothing, with count 0 |
| FormTemplates.TemplateStore.DeleteFormTemplate | lib/formTemplates.ts:98-100 | the key is removed |
| FormTemplates.TemplateStore.GetFormTemplateById | lib/formTemplates.ts:50-52 | found iff stored, and then that row |
| FormTemplates.TemplateStore.GetAllFormTemplates | lib/formTemplates.ts:7-9 | every stored template once, and nothing else, in ascending id order |
| FormTemplates.TemplateStore.DuplicateFormTemplate | lib/formTemplates.ts:105-123 | a missing id fails with "Template with ID n not found" and adds nothing; otherwise one copy named "... (Copy)" with fresh timestamps is added under a new key, which is returned |
| FormTemplates.TemplateStore.ImportFormTemplate | lib/formTemplates.ts:135-153 | text that does not parse fails with "Invalid template format" and adds nothing; an imported template gets a fresh id whatever id it carried, and fresh timestamps |
| FormTemplates.MatchesQuery | lib/formTemplates.ts:57-66 | definition; its properties are in `TemplateStore.SearchFormTemplates` |
| FormTemplates.TemplateStore.SearchFormTemplates | lib/formTemplates.ts:57-66 | exactly the templates whose lower-cased name or description contains the lower-cased query, each once, in ascending id order; the empty query returns them all |
| FormTemplates.TemplateStore.GetFormTemplatesPage | lib/formTemplates.ts:14-45 | the parameters default as the source's do (page 1, size 10, `updatedAt`, descending); an unindexed sort key fails; otherwise `total` counts the table, and the page is offset/limit of the index walk, reversed for descending |
| SampleForm.SampleFields | lib/sampleForm.ts:21-175 | the sample has 17 fields |
| SampleForm.Orders | lib/sampleForm.ts:21-175 | each field's `order`, position for position |
| SampleForm.SampleOrders | lib/sampleForm.ts:21-175 | the fields are ordered 1 to 17 in list order |
| SampleForm.SampleFlags | lib/sampleForm.ts:21-213 | no field is hidden; options are present on exactly the radio, checkbox and select fields; only the checkbox allows "other" |
| SampleForm.Names | lib/sampleForm.ts:21-175 | each field's name, position for position |
| SampleForm.SampleNamesAre | lib/sampleForm.ts:21-175 | the field names are the listed 17 names |
| SampleForm.SampleNameKeysDistinct | lib/sampleForm.ts:21-175 | the 17 names are pairwise distinct (via a numeric key) |
| SampleForm.SampleNamesDistinct | lib/sampleForm.ts:178-213 | no two fields share a name, so each `find` by name picks one field |
| SampleForm.SampleTemplate | lib/sampleForm.ts:216-232 | the template has no id, has the sample name, has timestamps now and the 17 fields; it allows offline submission, requires a signature and forbids incomplete submission |
| SampleForm.SampleChoices | lib/sampleForm.ts:178-213 | 5 condition options (default the second), 9 inspection points with "other", and 4 due intervals; the corrective-actions field depends on the issues field |
| SampleForm.FirstNamed | lib/sampleForm.ts:10-18 | definition; its properties are in `FirstNamedSpec` and `FirstNamedAfterAdd` |
| SampleForm.FirstNamedSpec | lib/sampleForm.ts:10-18 | the lookup finds the smallest id with that name, and finds nothing iff no template has the name |
| SampleForm.FirstNamedAfterAdd | lib/sampleForm.ts:235-238 | after adding the only template of a name, the lookup finds the new id |
| SampleForm.InitializeSampleForm | lib/sampleForm.ts:8-238 | an existing sample's lowest id is returned and nothing is added; otherwise the sample is added under a fresh id; afterwards the returned id is what the lookup finds, so seeding is idempotent |
| ErrorHandler.CreateError | lib/errorHandler.ts:25-37 | the error record carries exactly its four arguments |
| ErrorHandler.MentionsNetwork | lib/errorHandler.ts:69 | definition; its properties are in `ApiErrorClassification` |
| ErrorHandler.HandleApiError | lib/errorHandler.ts:58-92 | a Response gives a network error, with the status as code and in the message; an Error mentioning "network" or "fetch" gives the network message; any other Error keeps its message, or the unknown text when the message is empty; anything else is unknown; the original is always kept |
| ErrorHandler.ApiErrorClassification | lib/errorHandler.ts:58-92 | network iff a Response, or an Error mentioning "network" or "fetch"; every other error is unknown |
| ErrorHandler.ApiErrorCodeIsStatus | lib/errorHandler.ts:59-66 | a code exists iff a Response was thrown; the code parses back to the status, and the message ends with it |
| ErrorHandler.ApiErrorHasMessage | lib/errorHandler.ts:58-92 | the message is never empty |
| ErrorHandler.GetUserFriendlyErrorMessage | lib/errorHandler.ts:97-110 | one fixed non-empty text per kind; a validation error shows its own message when that is non-empty |
| ErrorHandler.FriendlyMessageIgnoresDetails | lib/errorHandler.ts:97-110 | apart from validation errors, the shown text depends on the kind alone |
| ErrorHandler.FriendlyMessageOfApiError | lib/errorHandler.ts:58-110 | an API error is shown as the connection text iff it is network-classified, and otherwise as the generic text |
| FormViewer.LooksLikeEmail | components/forms/FormViewer.tsx:151 | definition; its properties are in `EmailShape` and `ShortestEmailAccepted` |
| FormViewer.EmailShape | components/forms/FormViewer.tsx:151 | an address the expression accepts has exactly one "@" with text on both sides, no whitespace, and at least five characters |
| FormViewer.ShortestEmailAccepted | components/forms/FormViewer.tsx:151 | "a@b.c" is accepted |
| FormViewer.IsSpace | components/forms/FormViewer.tsx:151 | definition (the characters `\s` matches); its properties are in `EmailShape` |
| FormViewer.RuleFails | components/forms/FormViewer.tsx:124-155 | definition; its properties are in `RuleFailsOnlyOnItsType` and `AbsentPatternNeverFails` |
| FormViewer.PatternSource | components/forms/FormViewer.tsx:146 | definition; its properties are in `AbsentPatternNeverFails`: an absent value compiles the empty pattern, anything else its `String` form |
| FormViewer.FieldErrors | components/forms/FormViewer.tsx:101-157 | definition; its properties are in `FieldErrorsFrame`, `RequiredFieldMessage`, `OptionalEmptyFieldSkipped`, `FieldLastFailureWins` and `MinLengthOverridesRequired` |
| FormViewer.RulesErrors | components/forms/FormViewer.tsx:115-156 | definition; its properties are in `RulesErrorsFrame`, `RulesNoFailure` and `RulesLastFailureWins` |
| FormViewer.RequiredMessage | components/forms/FormViewer.tsx:110 | definition; its properties are in `RequiredFieldMessage` |
| FormViewer.ValidationErrors | components/forms/FormViewer.tsx:98-162 | definition; its properties are in `ErrorsComeFromVisibleFields`, `HiddenFieldNoEntry`, `ValidationIgnoresConditions` and `BuildErrors` |
| FormViewer.AbsentPatternNeverFails | components/forms/FormViewer.tsx:145-148 | a pattern rule with no value compiles the empty pattern, which matches every string, so it never adds an error |
| FormViewer.RuleFailsOnlyOnItsType | components/forms/FormViewer.tsx:124-155 | a failing length, pattern or email rule saw a string; a failing min or max rule saw a number; required, url and custom rules never fail here |
| FormViewer.RulesErrorsFrame | components/forms/FormViewer.tsx:115-156 | a field's rules touch only that field's entry, and never remove it |
| FormViewer.RulesNoFailure | components/forms/FormViewer.tsx:115-156 | when no rule fails, the errors are unchanged |
| FormViewer.RulesLastFailureWins | components/forms/FormViewer.tsx:115-156 | the message kept is that of the last failing rule |
| FormViewer.HiddenFieldSkipped | components/forms/FormViewer.tsx:103 | a hidden field adds nothing |
| FormViewer.FieldErrorsFrame | components/forms/FormViewer.tsx:101-157 | validating a field changes only its own entry |
| FormViewer.RequiredFieldMessage | components/forms/FormViewer.tsx:106-112 | a blank required field with no failing rule gets "<label> is required" |
| FormViewer.OptionalEmptyFieldSkipped | components/forms/FormViewer.tsx:119-122 | a blank optional field gets no error |
| FormViewer.FieldLastFailureWins | components/forms/FormViewer.tsx:115-156 | for a field with a value, or a required one, the last failing rule's message is the field's error |
| FormViewer.MinLengthOverridesRequired | components/forms/FormViewer.tsx:106-129 | a blank required field with a failing length rule reports the rule's message, not "is required" |
| FormViewer.ErrorsComeFromVisibleFields | components/forms/FormViewer.tsx:101-158 | every error names a field that is not hidden |
| FormViewer.HiddenFieldNoEntry | components/forms/FormViewer.tsx:103 | a name held only by hidden fields never has an error |
| FormViewer.WithoutConditions | components/forms/FormViewer.tsx:316-351 | the fields with their display conditions dropped, position for position |
| FormViewer.ValidationIgnoresConditions | components/forms/FormViewer.tsx:98-162 | dropping every display condition leaves the errors unchanged |
| FormViewer.BuildErrors | components/forms/FormViewer.tsx:98-162 | the loop builds exactly the validation errors, and reports valid iff there are none |
| FormViewer.ConditionHolds | components/forms/FormViewer.tsx:321-350 | definition; its properties are in `NotEqualsNegatesEquals`, `AffixImpliesContains`, `ContainsMeaning` and `ComparisonsExclusive` |
| FormViewer.IsShown | components/forms/FormViewer.tsx:316-351 | definition; its properties are in `ComparisonsExclusive` and `ConditionallyHiddenStillRequired` |
| FormViewer.NotEqualsNegatesEquals | components/forms/FormViewer.tsx:323-328 | "notEquals" holds iff "equals" does not; an object value never equals |
| FormViewer.AffixImpliesContains | components/forms/FormViewer.tsx:329-338 | "startsWith" and "endsWith" each imply "contains" |
| FormViewer.ContainsMeaning | components/forms/FormViewer.tsx:329-332 | on a list, "contains" is strict membership; on strings, substring |
| FormViewer.ComparisonsExclusive | components/forms/FormViewer.tsx:340-348 | greater and less never hold together, and both need a number; an unhandled operator shows the field |
| FormViewer.ConditionallyHiddenStillRequired | components/forms/FormViewer.tsx:98-162 | a required field whose condition hides it still gets the required error |
| FormViewer.WidgetFor | components/forms/FormViewer.tsx:361-403 | each widget is chosen for exactly the field types listed with it; an unrecognised type gets the placeholder |
| FormViewer.CountsForProgress | components/forms/FormViewer.tsx:430 | definition; its properties are in `EligibleCount` |
| FormViewer.EligibleCount | components/forms/FormViewer.tsx:430 | at most the number of fields, and zero iff every field is hidden, a section or a heading |
| FormViewer.Progress | components/forms/FormViewer.tsx:429-431 | the floor of answered*100/eligible; with no eligible field, NaN when nothing is answered and Infinity otherwise |
| FormViewer.ProgressBounds | components/forms/FormViewer.tsx:429-431 | within 0..100 while answered <= eligible, and 100 exactly when all are answered; extra keys can exceed 100 (2 of 1 gives 200) |
| FormViewer.FormSession.ProgressBar | components/forms/FormViewer.tsx:429-431 | the session's bar: the floor of the number of `formData` keys times 100 over the eligible fields of its template, within 0..100 while no more keys than eligible fields are set; NaN iff there is no eligible field and no data |
| FormViewer.BrowserType | components/forms/FormViewer.tsx:171-173 | Chrome iff the agent mentions Chrome; Firefox iff it mentions Firefox but not Chrome; Safari iff it mentions Safari but neither of the others; Unknown iff none of the three names occurs |
| FormViewer.DeviceInfoOf | components/forms/FormViewer.tsx:165-175 | device id and OS version are the user agent, the model is the platform, the app version is "1.0.0", and the browser type comes from the agent |
| FormViewer.DraftPatch | components/forms/FormViewer.tsx:220-224 | definition; its properties are in `DraftPatchChangesOnlyData` |
| FormViewer.SubmitPatch | components/forms/FormViewer.tsx:276-283 | definition; its properties are in `SubmitPatchMarksSubmitted` |
| FormViewer.DraftPatchChangesOnlyData | components/forms/FormViewer.tsx:218-224 | saving a draft over a response changes only its data, device info and `updatedAt` |
| FormViewer.SubmitPatchMarksSubmitted | components/forms/FormViewer.tsx:274-283 | submitting over a response makes it submitted at now with data, device, offline flag and location; id and template stay |
| FormViewer.FormSession.constructor | components/forms/FormViewer.tsx:42-55 | data and id come from the existing response (or empty and none), errors start empty, and offline is the negation of online |
| FormViewer.FormSession.GoOnline | components/forms/FormViewer.tsx:69-80 | clears the offline flag, nothing else |
| FormViewer.FormSession.GoOffline | components/forms/FormViewer.tsx:69-80 | sets the offline flag, nothing else |
| FormViewer.FormSession.HandleFieldChange | components/forms/FormViewer.tsx:82-96 | the field takes the value, and its error is dropped only when a non-empty message was there |
| FormViewer.FormSession.ValidateForm | components/forms/FormViewer.tsx:98-162 | the errors become the validation errors of the current data; valid iff none |
| FormViewer.FormSession.HasResponseId | components/forms/FormViewer.tsx:218 | definition (`if (responseId)` on a number id); its properties are in `FormSession.HandleSaveDraft` and `FormSession.HandleSubmit` |
| FormViewer.FormSession.HandleSaveDraft | components/forms/FormViewer.tsx:210-248 | read-only does nothing; a known response gets data, device and `updatedAt`; otherwise a new offline-aware draft is created and its id remembered and reported |
| FormViewer.FormSession.HandleSubmit | components/forms/FormViewer.tsx:250-309 | read-only does nothing; errors are recomputed; an invalid form without allowIncomplete writes nothing; otherwise the response is updated or created as submitted, with the location only when geolocation is allowed, and its id is reported |
| SyncService.DeliveriesOf | lib/syncService.ts:57-65 | one delivery per listener, in registration order |
| SyncService.DeliveriesOfAll | lib/syncService.ts:57-65 | definition; its properties are in `DeliveriesOfAllSnoc`, `DeliveriesOfAllAppend` and `EveryListenerCalled` |
| SyncService.DeliveriesOfAllSnoc | lib/syncService.ts:57-65 | the deliveries of one more event are appended after the earlier ones |
| SyncService.DeliveriesOfAllAppend | lib/syncService.ts:57-65 | deliveries of two event runs concatenate |
| SyncService.EveryListenerCalled | lib/syncService.ts:57-65 | every listener receives every event, even when an earlier listener throws; the count is events times listeners; nothing undelivered appears |
| SyncService.WithoutListener | lib/syncService.ts:50-52 | exactly the listeners other than the removed one remain |
| SyncService.WithoutListenerAppend | lib/syncService.ts:50-52 | removal distributes over concatenation |
| SyncService.WithoutAbsentListener | lib/syncService.ts:50-52 | removing an unregistered listener changes nothing |
| SyncService.AddThenRemove | lib/syncService.ts:43-52 | adding a new listener and removing it restores the list |
| SyncService.Synced | lib/syncService.ts:95-97 | a marked row is no longer unsynced and keeps its id, data and status |
| SyncService.MarkedRows | lib/syncService.ts:91-104 | the marked ids are synced, and every other row is left as it was |
| SyncService.FailureEvents | lib/syncService.ts:139-163 | at most one event per destination, all of them errors |
| SyncService.HandOffFails | lib/syncService.ts:139-163 | definition; its properties are in `FailureEventsExact` |
| SyncService.FailureEventsExact | lib/syncService.ts:139-163 | a destination gets an error event iff it is enabled and its hand-off fails |
| SyncService.DestinationEvents | lib/syncService.ts:131-166 | definition; its properties are in `DestinationEventsShape` and `SyncService.ProcessDestinations` |
| SyncService.DestinationEventsShape | lib/syncService.ts:131-166 | no destinations give no events; otherwise a start first, a completion last, only errors in between (at most one per destination), and never an error for a disabled destination |
| SyncService.SyncService.constructor | lib/syncService.ts:13-23 | online as given, not syncing, no listeners, no events |
| SyncService.SyncService.AddSyncListener | lib/syncService.ts:43-45 | the listener is appended and nothing else changes |
| SyncService.SyncService.RemoveSyncListener | lib/syncService.ts:50-52 | the listener is filtered out and nothing else changes |
| SyncService.SyncService.Destroy | lib/syncService.ts:118-124 | no listener remains |
| SyncService.SyncService.NotifyListeners | lib/syncService.ts:57-65 | the event is recorded and delivered to each listener in order |
| SyncService.SyncService.HandleOffline | lib/syncService.ts:36-38 | offline, nothing else changes |
| SyncService.SyncService.Sync | lib/syncService.ts:70-113 | offline or already syncing does nothing; otherwise a sync runs (see RunSync) |
| SyncService.SyncService.SyncRan | lib/syncService.ts:70-113 | definition of what a sync that passes its guard leaves behind; it is stated by `SyncService.RunSync`, `SyncService.Sync` and `SyncService.HandleOnline` |
| SyncService.SyncService.RunSync | lib/syncService.ts:75-112 | start, then complete with the count of unsynced rows (all marked) exactly when no mark fails, else an error; listeners receive both events; afterwards not syncing; only unsynced rows change |
| SyncService.SyncService.MarkUnsynced | lib/syncService.ts:91-104 | the rows before the first failing mark are marked synced; fails iff the failing mark is within the list |
| SyncService.SyncService.MarkNext | lib/syncService.ts:95-97 | one more response is marked synced: the rows become those with one more id marked |
| SyncService.SyncService.HandleOnline | lib/syncService.ts:28-31 | goes online and syncs, unless a sync is already running |
| SyncService.SyncService.NotifyFailures | lib/syncService.ts:139-163 | one error event per enabled destination whose hand-off fails, each delivered |
| SyncService.SyncService.ProcessDestinations | lib/syncService.ts:131-166 | the events of `DestinationEvents` are emitted and delivered, in order |
| SyncService.IdsOfStep | lib/syncService.ts:91-104 | each further mark adds one new id |
| SyncService.IdsOf | lib/syncService.ts:91-100 | definition; its properties are in `IdsOfStep` |
| SyncService.TwoEventsDelivered | lib/syncService.ts:75-109 | a start and a closing event, delivered in order, are the delivery run of the two |
| SyncService.MarkingAllLeavesNoneUnsynced | lib/syncService.ts:91-106 | after a complete sync no row is unsynced |
| SyncService.UnsyncedKeysCount | lib/syncService.ts:106 | the completion count is the number of unsynced rows |
| SyncService.UnsyncedKeys | lib/syncService.ts:80 | definition; its properties are in `UnsyncedKeysCount` and `MarkingAllLeavesNoneUnsynced` |
| CheckboxInput.Normalise | components/forms/fields/CheckboxInput.tsx:17 | a list stays as it is; any other truthy value becomes a one-element list; a falsy one becomes empty |
| CheckboxInput.RemoveAll | components/forms/fields/CheckboxInput.tsx:48 | the marker is gone and every other value keeps its count |
| CheckboxInput.RemoveFirst | components/forms/fields/CheckboxInput.tsx:30-34 | definition; its properties are in `RemoveFirstAt`, `RemoveFirstAbsent` and `RemoveFirstCounts` |
| CheckboxInput.RemoveFirstAt | components/forms/fields/CheckboxInput.tsx:30-34 | splicing at the first occurrence removes exactly that element |
| CheckboxInput.RemoveFirstAbsent | components/forms/fields/CheckboxInput.tsx:30-34 | removing an absent option changes nothing |
| CheckboxInput.RemoveFirstCounts | components/forms/fields/CheckboxInput.tsx:30-34 | unchecking removes one copy of the option, or nothing when it is absent |
| CheckboxInput.IndexOf | components/forms/fields/CheckboxInput.tsx:31 | -1 iff absent; otherwise the first position holding the option |
| CheckboxInput.HandleCheckboxChange | components/forms/fields/CheckboxInput.tsx:19-42 | a checkbox field appends an option it lacks when checked and splices the option out when unchecked; another type emits the option or "" |
| CheckboxInput.CheckAddsOnce | components/forms/fields/CheckboxInput.tsx:24-29 | checking yields no duplicate, contains the option, and keeps earlier entries in order |
| CheckboxInput.UncheckRemoves | components/forms/fields/CheckboxInput.tsx:30-34 | without duplicates, unchecking removes the option entirely and keeps every other entry |
| CheckboxInput.CheckThenUncheck | components/forms/fields/CheckboxInput.tsx:19-42 | checking a new option and unchecking it restores the list |
| CheckboxInput.HandleOtherChange | components/forms/fields/CheckboxInput.tsx:44-53 | the text is kept; the list keeps its other values in order, and ends with exactly one "other" marker iff the text is non-empty |
| CheckboxInput.HandleOtherToggle | components/forms/fields/CheckboxInput.tsx:94-99 | the checkbox edit with the "__other__" value: a non-checkbox field gets "__other__" or ""; checking appends the marker when absent and keeps the list otherwise; unchecking splices out its first occurrence (so with no duplicates it is gone); unchecking also empties the text |
| FileInput.AcceptTypes | components/forms/fields/FileInput.tsx:17-20 | "image/*" for an image field; otherwise the allowed types joined by ",", so each of them appears, or "" when none is set |
| FileInput.JoinIncludesEach | components/forms/fields/FileInput.tsx:20 | every joined part occurs in the join |
| FileInput.Names | components/forms/fields/FileInput.tsx:46 | the file names, position for position |
| FileInput.AsValues | components/forms/fields/FileInput.tsx:45 | the files as values, position for position |
| FileInput.FilePicker.constructor | components/forms/fields/FileInput.tsx:15 | no names, no files |
| FileInput.FilePicker.HandleFileChange | components/forms/fields/FileInput.tsx:22-54 | an empty selection clears and emits null; an oversize file is rejected iff one exceeds the active limit, and the first such file is named, nothing is emitted and the input is reset; otherwise the names are listed, and the first file or the whole list is emitted |
| FileInput.FilePicker.HandleRemoveFile | components/forms/fields/FileInput.tsx:56-62 | clears names and input; emits null |
| FileInput.ExactLimitAccepted | components/forms/fields/FileInput.tsx:33 | a file of exactly the limit passes (strict comparison) |
| FileInput.NoLimitAcceptsAll | components/forms/fields/FileInput.tsx:31 | a limit of 0 or none accepts everything |
| FileInput.SizeLimitActive | components/forms/fields/FileInput.tsx:31 | definition; its properties are in `NoLimitAcceptsAll` and `FilePicker.HandleFileChange` |
| FileInput.WithinLimit | components/forms/fields/FileInput.tsx:30-42 | definition; its properties are in `ExactLimitAccepted`, `NoLimitAcceptsAll` and `FilePicker.HandleFileChange` |
| MobileHeader.GetPageTitle | components/MobileHeader.tsx:23-39 | definition; its properties are in `PageTitleFirstMatch`, `AdminPagesBeforeAdmin`, `FormsPrefixIsForms`, `TrailingSlashTitle` and `SingleSegmentTitle` |
| MobileHeader.LastSegment | components/MobileHeader.tsx:37 | the text after the last "/", which contains no "/" and ends the path |
| MobileHeader.Capitalize | components/MobileHeader.tsx:38 | the same length, with the first character upper-cased and the rest unchanged |
| MobileHeader.FirstSection | components/MobileHeader.tsx:27-34 | the first table entry whose prefix the path has, or none when no entry matches |
| MobileHeader.PageTitleFirstMatch | components/MobileHeader.tsx:23-39 | "/" is Home; otherwise the first matching prefix's title; otherwise the last segment capitalised |
| MobileHeader.NotPrefixAt | components/MobileHeader.tsx:27-34 | a path differing from a prefix at some position does not start with it |
| MobileHeader.TitleAtSection | components/MobileHeader.tsx:26-38 | when the first k prefixes fail, the title is that of prefix k if it matches, or the capitalised last segment once all eight fail |
| MobileHeader.FormBuilderTitle | components/MobileHeader.tsx:28 | a path under "/admin/form-builder" is titled "Form Builder" |
| MobileHeader.FormResponsesTitle | components/MobileHeader.tsx:29 | a path under "/admin/form-responses" is titled "Form Responses" |
| MobileHeader.SettingsTitle | components/MobileHeader.tsx:30 | a path under "/admin/settings" is titled "Settings" |
| MobileHeader.AdminTitle | components/MobileHeader.tsx:31 | any other path under "/admin" is titled "Admin" |
| MobileHeader.AdminPagesBeforeAdmin | components/MobileHeader.tsx:28-31 | the three specific admin pages are named before the generic admin prefix |
| MobileHeader.FormsPrefixIsForms | components/MobileHeader.tsx:27 | any path starting "/forms" is Forms |
| MobileHeader.TrailingSlashTitle | components/MobileHeader.tsx:37-38 | an unknown route ending in "/" gets the empty title |
| MobileHeader.LastSegmentAfterSlash | components/MobileHeader.tsx:37 | the last segment is what follows the last "/" |
| MobileHeader.SingleSegmentTitle | components/MobileHeader.tsx:36-38 | a one-segment route that no section prefix matches is titled by its segment with the first letter upper-cased |
| MobileHeader.UnknownRouteTitle | components/MobileHeader.tsx:36-38 | "/reports" is titled "Reports" |
| MobileHeader.NoSectionForReports | components/MobileHeader.tsx:26-34 | no title prefix matches "/reports" |
| MobileHeader.ReportsSegment | components/MobileHeader.tsx:37-38 | the capitalised last segment of "/reports" is "Reports" |
| MobileHeader.ToggleTheme | components/MobileHeader.tsx:49 | dark becomes light; anything else becomes dark; the result always differs |
| MobileNavBar.IsActive | components/MobileNavBar.tsx:36-41 | definition; its properties are in `RootActiveOnlyAtRoot` and `OtherActiveByPrefix` |
| MobileNavBar.IsExactPath | components/MobileNavBar.tsx:43-45 | definition; its properties are in `ExactIsActive` |
| MobileNavBar.NavItemKindOf | components/MobileNavBar.tsx:48-67 | a button iff on exactly that route or an `onClick` is given; otherwise a link |
| MobileNavBar.NavItemColour | components/MobileNavBar.tsx:50 | primary when active, dimmed neutral otherwise |
| MobileNavBar.RootActiveOnlyAtRoot | components/MobileNavBar.tsx:37 | "/" is active only at "/" |
| MobileNavBar.OtherActiveByPrefix | components/MobileNavBar.tsx:38 | any other path is active iff the route starts with it |
| MobileNavBar.ExactIsActive | components/MobileNavBar.tsx:36-45 | being on exactly the path implies being active |
| Header.IsActive | components/header.tsx:40-45 | definition; its properties are in `SameActiveAsNavBar` and `LinkClassMarksActive` |
| Header.SameActiveAsNavBar | components/header.tsx:40-45 | the desktop header and the mobile bar agree on which link is active |
| Header.GetLinkClass | components/header.tsx:48-51 | the base classes, a space, then the active or the inactive classes |
| Header.LinkClassMarksActive | components/header.tsx:48-51 | the class ends with the active classes iff the link is active, and with the hover class iff not |
| Header.ThemeToggleFlips | components/header.tsx:183 | toggling twice restores dark or light |
| Header.AvatarInitial | components/header.tsx:265 | a single character: the name's first, else the email's first, else "U" |
| Header.AvatarInitialFromIdentity | components/header.tsx:265 | the initial starts the name or the email, or is the fallback "U" |
| JsValue.Lookup | components/forms/FormViewer.tsx:107 | a missing key reads as undefined (for names that are not `Object.prototype` members) |
| JsValue.IsBlank | components/forms/FormViewer.tsx:109 | definition; its properties are in `BlankIsFalsy`, `FormViewer.RequiredFieldMessage` and `FormViewer.OptionalEmptyFieldSkipped` |
| JsValue.Truthy | components/forms/fields/CheckboxInput.tsx:17 | definition; its properties are in `BlankIsFalsy` and `CheckboxInput.Normalise` |
| JsValue.StrictEquals | components/forms/FormViewer.tsx:324 | definition; its properties are in `FormViewer.NotEqualsNegatesEquals` |
| JsValue.IsObject | components/forms/FormViewer.tsx:324 | definition; its properties are in `FormViewer.NotEqualsNegatesEquals`, where an object is never strictly equal |
| JsValue.ListIncludes | components/forms/FormViewer.tsx:331 | definition; its properties are in `FormViewer.ContainsMeaning` |
| JsValue.ToJsString | components/forms/FormViewer.tsx:332 | definition; its properties are in `NumberOfString` and `FormViewer.ContainsMeaning` |
| JsValue.ToNumber | components/forms/FormViewer.tsx:341 | definition; its properties are in `NumberOfString` and `FormViewer.ComparisonsExclusive` |
| JsValue.NumGreater | components/forms/FormViewer.tsx:341 | definition; its properties are in `FormViewer.ComparisonsExclusive` |
| JsValue.NumLess | components/forms/FormViewer.tsx:344 | definition; its properties are in `FormViewer.ComparisonsExclusive` |
| JsValue.BlankIsFalsy | components/forms/FormViewer.tsx:109 | undefined, null and "" are all falsy |
| JsValue.NumberOfString | components/forms/FormViewer.tsx:341 | `Number(String(n))` is n for an integer n |
| JsText.StartsWith | components/forms/FormViewer.tsx:335 | definition; its properties are in `FormViewer.AffixImpliesContains` and `PrefixIncluded` |
| JsText.EndsWith | components/forms/FormViewer.tsx:338 | definition; its properties are in `FormViewer.AffixImpliesContains` |
| JsText.Includes | lib/formTemplates.ts:62 | definition; its properties are in `IncludesIffOccurs`, `IncludesEmpty` and `PrefixIncluded` |
| JsText.IncludesIffOccurs | lib/formTemplates.ts:62 | `s.includes(t)` iff t occurs in s at some offset |
| JsText.IncludesEmpty | lib/formTemplates.ts:58-63 | every string includes "" |
| JsText.PrefixIncluded | components/forms/FormViewer.tsx:335 | a string includes each of its prefixes |
| JsText.ToLower | lib/formTemplates.ts:58 | the same length, each character mapped to lower case |
| JsText.LowerChar | lib/formTemplates.ts:58 | definition; its properties are in `ToLower` |
| JsText.UpperChar | components/MobileHeader.tsx:38 | definition; its properties are in `MobileHeader.Capitalize` |
| JsText.Join | components/forms/fields/FileInput.tsx:20 | definition; its properties are in `FileInput.JoinIncludesEach` and `FileInput.AcceptTypes` |
| JsText.IntToString | lib/errorHandler.ts:63 | definition; its properties are in `NumberOfIntToString` and `IntToStringInjective` |
| JsText.ParseNumber | components/forms/FormViewer.tsx:341 | definition; its properties are in `NumberOfIntToString` |
| JsText.StrLess | db/database.config.ts:15 | definition; its properties are in `StrLessIrreflexive`, `StrLessTransitive` and `StrLessTotal` |
| JsText.StrLessIrreflexive | db/database.config.ts:15 | no name sorts before itself in the name index |
| JsText.StrLessTransitive | db/database.config.ts:15 | the name index order is transitive |
| JsText.StrLessTotal | db/database.config.ts:15 | of two different names one sorts before the other |
| JsText.Slice | lib/formResponses.ts:73 | definition; its properties are in `SliceWindow` |
| JsText.NumberOfIntToString | lib/formTemplates.ts:122 | `Number(String(n)) === n` for an integer |
| JsText.IntToStringInjective | lib/errorHandler.ts:62-64 | different statuses give different codes |
| JsText.SliceWindow | lib/formResponses.ts:73 | `slice` returns at most end-start elements, all from the list, clamped to its length |

## Left out

- Dexie and IndexedDB I/O, promises and concurrency: each store call is atomic and the calls run in sequence.
- `Promise.all` in `sync` (lib/syncService.ts:91-104): marks run one at a time and stop at the first failure. In the source the other marks may still finish. `SyncRan` therefore allows any subset of the unsynced rows to be marked after an error.
- The destination processors (lib/syncService.ts:142-157) are mocks; what they do is left out, and the parameter `fails` says whether one throws.
- Failures of `getUnsyncedResponses` itself are not modelled; only mark failures are, via `failAt`.
- A listener that unsubscribes during a notification is not modelled.
- The constructor's window `online`/`offline` handlers (lib/syncService.ts:13-23) and the React effects (components/forms/FormViewer.tsx:69-80) are replaced by explicit calls: `HandleOnline`/`HandleOffline` and `GoOnline`/`GoOffline`.
- The autosave timer and its debounce (components/forms/FormViewer.tsx:58-66) are left out, as are the `isSaving`/`isSubmitting` flags.
- All rendering is left out: the JSX, the icons and the menus, including the MobileNavBar's `showAdminMenu` state.
- Geolocation: `navigator.geolocation` is the parameter `position`.
- The clock is the parameter `now`. Each store call reads it once, so `createdAt` equals `updatedAt`.
  `SyncService.SyncService.MarkUnsynced` passes one `now` to every mark of a sync, while each `markResponseAsSynced` (lib/formResponses.ts:163) reads the clock itself; the model does not capture the different times those marks would record.
- The `typeof id === 'number' ? id : Number(id)` conversions: keys are always numbers here.
- `exportFormTemplateToJSON` and `exportFormResponsesToJSON` are left out, because they only call `JSON.stringify`. `importFormTemplateFromJSON` takes the result of `JSON.parse` as an Option.
- Dexie behaviour for a negative offset or limit is not modelled; `OffsetLimit` only says what happens for offsets within the list.
- An invalid `RegExp` pattern throws in the source. Here `regexTest` is a total parameter.
- `logError` (lib/errorHandler.ts:43-53) only writes to the console.
- The `formatBytes` text of the over-size alert is left out: the model reports only the rejected file's name.
- `fileInputRef` is assumed mounted.
- The initial theme comes from the theme-detection hook and persistent storage. It is not modelled; `ToggleTheme` takes the current theme.
- JsValue.Lookup: field names are assumed not to be names of `Object.prototype` members ("constructor", "toString", "valueOf", "__proto__" and the like). For such a name, `formData[name]` on a missing key reads the inherited member rather than undefined, so a required field named "constructor" would not count as blank. Likewise, `newErrors["__proto__"] = message` sets the prototype instead of adding a key.
- Numbers are integers. Floating-point values, `Number()` on text with whitespace, fractions or hex, and NaN comparisons are not modelled.
- Case mapping (`toLowerCase`/`toUpperCase`) is ASCII only. Unicode mappings such as that of 'ß' are not modelled.
- FormResponses.SortInPlace: the ordering it proves is the comparator's order. It does not state stability, which `Array.prototype.sort` also gives.
- FormViewer.Progress: the source divides in floating point, multiplies by 100 and then floors; the model uses exact integer floor division. Floating-point rounding is not modelled, and it can differ: for 29 of 50 the source shows 57 (29/50*100 is 57.99999999999999) where the model gives 58, and for 57 of 100 it shows 56 where the model gives 57.
- FormResponses.ResponseStore.GetFormResponsesPage: the page is pinned to the insertion-sort order `SortedBy`. That is the source's order when every filtered row has the sort key, because the comparator is then consistent. When some row lacks `submittedAt` or `syncedAt`, the comparator (lib/formResponses.ts:61-70) is inconsistent and ECMAScript leaves the order to the engine, so the source's page may differ from the model's. The model still promises that the sorted rows are a permutation of the filtered rows, and `total` and `totalPages` do not depend on the order. The only caller leaves the sort at its default, `updatedAt` descending, which the model's defaults reproduce and which every row has a key for.
- Text outside the Basic Multilingual Plane: a Dafny character is a Unicode scalar value, while JavaScript strings count UTF-16 code units. For text with such characters (an emoji, say) the `minLength`/`maxLength` checks (`FormViewer.RuleFails`) count one where the source counts two, `JsText.StrLess` is not the code-unit order that IndexedDB and `<` use, and `Header.AvatarInitial` yields the whole character where `name?.[0]` is a lone surrogate.
- FormTemplates.TemplateStore.GetFormTemplatesPage: it assumes every stored template has an id (part of `Valid`).
