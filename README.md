# Form builder store, drag handling and response export — a Dafny model

This project models the core of a drag-and-drop form builder written in
TypeScript and React.

## What is modelled

**The form-document store** (`src/store/formStore.ts`) is the `FormStore.Store` class.
- Its fields are the store's state: the form being edited, the selected field, the preview and theme switches, the step cursor, the undo/redo history and its cursor, the auto-save switch, the in-memory response log and the validation errors.
- Each store action is a method.
- The document change each action makes is a pure function in `FormOps`: `AddField`, `UpdateField`, `DeleteField`, `ReorderFields`, `AddStep`, `UpdateStep` and `DeleteStep`.
- The bounded history is the generic `History` module: `Save`, `Undo` and `Redo` on a cursor value.
- Field validation is the `Validation` module.
  - `Check` applies the rules of `validateField` in their source order.
  - `MeetsRules` is an order-free reference definition of the same rules, and `Check`'s contract ties the two together.
  - `Message` builds the exact error texts, and `ParseMessage` reads them back.
  - `CollectErrors` is the nested loop of `validateForm`.

**Drag handling and the "last saved" label** (`src/components/FormBuilder.tsx`) are the `FormBuilder` module.
- `DragEnd` specifies which store calls a finished drag produces.
  - A palette drop produces one `addField`.
  - A drop on a step zone moves the field to the end.
  - A drop on another field moves it to that field's place.
- `HandleDragEnd` computes the same calls imperatively. It copies the ids into an array and moves one id in place (`MoveInPlace`), as the source's two `splice` calls do.
- `FormatLastSaved` buckets elapsed milliseconds into a message.
- `Elapsed` reads such a message back as a span of time. Every message is proved truthful about the real elapsed time.

**The response dashboard** (`src/components/ResponsesDashboard.tsx`) is the `ResponsesDashboard` module.
- `FormResponses` is the response filter.
- `ExportToCSV` builds the CSV text: a header line, then one line per response. Cells are joined by commas and lines by newlines, with no quoting.
- `ExportToJSON` builds the JSON export object.
- The CSV is proved to split back into its header and rows whenever no cell holds a comma or a line break. The submission time is a cell too: an `en-US` `toLocaleString` rendering such as `1/2/2024, 3:04:05 PM` holds a comma, so in that locale the condition fails for every data row.
- A concrete form shows that a label with a comma shifts the columns. Section 2 of RFC 4180 would have such a field quoted.

**Supporting modules.**
- `Strings` holds the JavaScript string operations the code relies on: `trim` with the ECMAScript whitespace set, decimal printing of integers inside template literals, and `join`. It also holds `split` and a decimal parser. The code never calls these two; they are the inverses used to read the printed output back, and the round-trip laws are proved.
- `Seqs` holds `filter`, with its concatenation and counting laws, and `findIndex`.
- `FormTypes` holds the datatypes of `src/types/form.ts`.

**Values from outside.** These are parameters of the operations they feed:
- fresh ids (`field_${Date.now()}` and the like) and the current time;
- the regular-expression test of a `pattern` rule, as a function `test(pattern, text)`;
- the locale rendering of a timestamp;
- the response log read from local storage at start-up.

**Where the code and its description disagree, the model follows the code:**
- `updateField` merges the patch into every field carrying the id, not only the first.
- `deleteField` does not renumber the `order` of the remaining fields.
- `addStep` always sets `settings.multiStep` to true.
- `addField` with an unknown step id changes no step, but it still stamps `updatedAt` and saves a history snapshot.
- `handleDragEnd` can dispatch two reorders for one drop: the step-zone block and the field-on-field block. Both are computed from the form as it was when the drag ended.
- `undo` followed by `redo` does not restore an edit that saved no snapshot. `updateField`, `reorderFields`, `updateStep` and `setCurrentForm` save none. After such an edit, the pair replaces the form with the snapshot under the cursor, and the edit is lost (`FormStore.UndoRedoDropsUnsavedEdit`). The pair restores the store exactly when the form shown is that snapshot (`FormStore.UndoThenRedo`).
- `validateForm` validates each field by looking its id up again. When ids repeat, every field carrying an id is judged by the first field with that id.

## Model

| member | source | states |
|---|---|---|
| FormOps.FieldIndex | src/components/FormBuilder.tsx:123-124 | `findIndex`: -1 exactly when no field carries the id, otherwise the first position that does |
| FormOps.IdsOfFieldIndex | src/components/FormBuilder.tsx:107-111 | an id is in the id list (`fields.map(f => f.id)`) exactly when `findIndex` finds it, and the list holds it at the index found |
| FormOps.StepIndex | src/components/FormBuilder.tsx:105 | the position of the step `find` returns: -1 exactly when no step carries the id, otherwise the first such position |
| FormTypes.AllFields | src/store/formStore.ts:406-407 | `flatMap` over the steps: every field of every step is in the flattened list |
| FormTypes.AllFieldsFromSteps | src/components/ResponsesDashboard.tsx:25-27 | conversely, every field of the flattened list belongs to one of the steps |
| FormOps.FieldCountIsAllFields | src/components/ResponsesDashboard.tsx:131 | the displayed field total (`reduce` over step lengths) equals the number of fields in the flattened list |
| FormOps.AddField | src/store/formStore.ts:96-121 | every step with the id gets the new field appended last, with `order` equal to the first such step's prior field count; other steps unchanged; only `steps` and `updatedAt` change |
| FormOps.AddFieldCount | src/store/formStore.ts:106-114 | the form's field total grows by the number of steps carrying the id, so by one when step ids are unique |
| FormOps.MergeFieldLaws | src/store/formStore.ts:132 | merging an empty patch changes nothing; merging a patch twice equals merging it once |
| FormOps.UpdateField | src/store/formStore.ts:123-142 | every field carrying the id has the patch merged in; every other field, every step's shape and everything but `updatedAt` stay |
| FormOps.DeleteField | src/store/formStore.ts:144-165 | no field with the id remains anywhere; every other field stays in its own step; `order` values are not renumbered |
| FormOps.DeleteAbsentField | src/store/formStore.ts:150-153 | deleting an id that no field carries leaves every step as it was |
| FormOps.Reordered | src/store/formStore.ts:175-178 | one element per id that names a field; each is that field re-numbered to the id's position in the list; the positions strictly increase; unknown ids are dropped |
| FormOps.ReorderedAllFound | src/store/formStore.ts:175-178 | when every id names a field, the result has one field per id in list order, numbered 0, 1, 2, ... |
| FormOps.ReorderedPermutation | src/store/formStore.ts:167-191 | when the ids are a rearrangement of unique field ids, the same fields come back in the order of the ids, with `order` values 0..n-1 |
| FormOps.ReorderFields | src/store/formStore.ts:167-191 | steps carrying the id get the reordered field list; other steps are untouched; only `steps` and `updatedAt` change |
| FormOps.AddStep | src/store/formStore.ts:198-221 | an empty step titled `Step n+1` with order n is appended last; `multiStep` becomes true; earlier steps and the field total are unchanged |
| FormOps.UpdateStep | src/store/formStore.ts:223-239 | steps carrying the id get the patch merged in; the others stay |
| FormOps.DeleteStep | src/store/formStore.ts:241-256 | the steps become exactly the order-keeping filter of the steps by a different id; no step with the id remains and every other step stays; the count drops by the number of steps carrying the id |
| FormOps.DeleteStepKeepsOrder | src/store/formStore.ts:247 | deleting from a concatenation of step lists is the concatenation of the deletions, so the survivors keep their order |
| FormOps.ResponsesFor | src/store/formStore.ts:397-400 | every returned response has the form id and comes from the log; every logged response with the id is returned |
| FormOps.ResponsesForAppend | src/store/formStore.ts:387-389 | an added response shows up last among its own form's responses, and no other form's list changes |
| FormOps.ResponsesForCount | src/components/ResponsesDashboard.tsx:58 | the number of a form's responses equals an independent count of matching log entries |
| Seqs.FirstIndex | src/components/FormBuilder.tsx:107 | `findIndex`: -1 exactly when no element satisfies the test, otherwise the first position that does |
| Seqs.FilterAppend | src/store/formStore.ts:399 | filtering distributes over concatenation, so the original order is kept |
| Seqs.FilterLength | src/components/ResponsesDashboard.tsx:18 | the length of a filtered list equals the count of elements that pass |
| History.Save | src/store/formStore.ts:274-285 | the history stays within 20 entries; the cursor sits on the new snapshot at the end |
| History.SaveKeepsPrefix | src/store/formStore.ts:278-283 | the entries a save keeps before the new snapshot are the most recent ones up to the old cursor, in order; the redo branch is dropped |
| History.Undo | src/store/formStore.ts:287-296 | the cursor moves back one entry only when it is above 0; the entries never change |
| History.Redo | src/store/formStore.ts:298-307 | the cursor moves forward one entry only when it is before the last; the entries never change |
| History.RedoAfterUndo | src/store/formStore.ts:287-307 | undo followed by redo restores the cursor wherever undo could act |
| History.UndoAfterRedo | src/store/formStore.ts:287-307 | redo followed by undo restores the cursor wherever redo could act |
| History.UndoAfterSave | src/store/formStore.ts:274-296 | undo right after a save shows again the snapshot that was current before it |
| History.UndoTimesIndex | src/store/formStore.ts:287-296 | n undos move the cursor back n entries but never past the first |
| History.SaveAllRecent | src/store/formStore.ts:278-283 | after a run of saves, the entries just before the cursor are the previous snapshots, newest first, up to the capacity |
| History.UndoRestoresEarlierEdit | src/store/formStore.ts:274-296 | after n snapshotted edits, k undos (k < n, k < 20) show the form as it was k edits earlier |
| Strings.TrimEmpty | src/store/formStore.ts:413 | `trim()` yields the empty string exactly when every character is ECMAScript whitespace |
| Strings.IntToString | src/store/formStore.ts:422 | the printed numeral starts with a minus sign exactly when the number is negative |
| Strings.IntToStringRoundTrip | src/store/formStore.ts:422-426 | a printed integer reads back as the same integer |
| Strings.IntToStringInjective | src/components/FormBuilder.tsx:144-148 | distinct integers print as distinct numerals |
| Strings.JoinFree | src/components/ResponsesDashboard.tsx:30-40 | joining creates no character that neither the parts nor the separator hold |
| Strings.SplitJoin | src/components/ResponsesDashboard.tsx:30-40 | splitting at the separator undoes joining when no part holds the separator |
| Validation.Message | src/store/formStore.ts:413-432 | the required and format messages are the fixed texts of exactly those violations; the length messages start with their own prefix |
| Validation.ParseMessageRoundTrip | src/store/formStore.ts:413-433 | every error message reads back as the violation it reports, with its bound |
| Validation.MessageInjective | src/store/formStore.ts:413-433 | distinct violations have distinct messages |
| Validation.IsBlankMeaning | src/store/formStore.ts:413 | a value is blank exactly when it is falsy or a string of whitespace only |
| Validation.Check | src/store/formStore.ts:412-437 | no violation exactly when every rule holds; "required" wins; non-text fields and fields without rules fail only "required"; each later violation carries its bound and needs the earlier checks to pass; minLength and maxLength rules of 0 are skipped |
| Validation.ValidateField | src/store/formStore.ts:402-438 | no message without a form or for an unknown id; otherwise no message exactly when the first field with the id meets its rules, else the message of its first failing check |
| Validation.ErrorsOf | src/store/formStore.ts:447-456 | every id in the error map fails its check, with the message stored under it |
| Validation.ErrorsOfMeaning | src/store/formStore.ts:444-456 | an id is in the error map exactly when a visited field carries it and its check fails, and it maps to that message |
| Validation.CollectErrors | src/store/formStore.ts:444-459 | the nested loops return valid exactly when every field passes, and they build exactly the error map `ErrorsOf` describes |
| Validation.ValidIffNoErrors | src/store/formStore.ts:440-460 | the form is valid exactly when the error map is empty |
| FormStore.Store.constructor | src/store/formStore.ts:75-87 | the initial state: no form, no selection, desktop preview, light theme, step 0, an empty history with cursor -1, auto-save on, the stored responses, no errors; the history is the empty cursor `History.Empty` |
| FormStore.Store.SetCurrentForm | src/store/formStore.ts:89-94 | only the current form changes |
| FormStore.Store.SaveToHistory | src/store/formStore.ts:274-285 | a no-op without a form; otherwise the history becomes `History.Save` of the current form, so it has at most 20 entries and the cursor is on the last entry, which is the current form; nothing else changes |
| FormStore.Store.Undo | src/store/formStore.ts:287-296 | the cursor follows `History.Undo`; when it moves, the form becomes the entry under it; otherwise nothing changes |
| FormStore.Store.Redo | src/store/formStore.ts:298-307 | the cursor follows `History.Redo`; when it moves, the form becomes the entry under it; otherwise nothing changes |
| FormStore.UndoThenRedo | src/store/formStore.ts:287-307 | with a snapshot before the cursor, undo then redo puts the cursor back and shows the snapshot under it, so the store is restored exactly when the form shown was that snapshot |
| FormStore.UndoRedoDropsUnsavedEdit | src/store/formStore.ts:123-142 | a relabelling `updateField` saves no snapshot, so an undo and a redo right after it bring back the form from before the edit and the edited form is gone |
| FormStore.Store.AddField | src/store/formStore.ts:96-121 | a no-op without a form; otherwise the form becomes `FormOps.AddField` of it and that form is saved to the history; nothing else changes |
| FormStore.Store.UpdateField | src/store/formStore.ts:123-142 | the form becomes `FormOps.UpdateField` of it; the history and its cursor are untouched |
| FormStore.Store.DeleteField | src/store/formStore.ts:144-165 | the form becomes `FormOps.DeleteField` of it and is saved to the history; the selection is cleared exactly when it was the deleted id |
| FormStore.Store.ReorderFields | src/store/formStore.ts:167-191 | the form becomes `FormOps.ReorderFields` of it; nothing else changes, and no snapshot is taken |
| FormStore.Store.SelectField | src/store/formStore.ts:193 | only the selection changes |
| FormStore.Store.SetPreviewMode | src/store/formStore.ts:194 | only the preview mode changes |
| FormStore.Store.TogglePreview | src/store/formStore.ts:195 | only the preview flag flips |
| FormStore.Store.ToggleTheme | src/store/formStore.ts:196 | only the theme flips between light and dark |
| FormStore.Store.ToggleAutoSave | src/store/formStore.ts:378 | only the auto-save flag flips |
| FormStore.Store.AddStep | src/store/formStore.ts:198-221 | a no-op without a form; otherwise the form becomes `FormOps.AddStep` of it and is saved to the history |
| FormStore.Store.UpdateStep | src/store/formStore.ts:223-239 | the form becomes `FormOps.UpdateStep` of it; nothing else changes |
| FormStore.Store.DeleteStep | src/store/formStore.ts:241-256 | the form becomes `FormOps.DeleteStep` of it and is saved to the history; the step cursor becomes 0 whatever it was |
| FormStore.Store.SetCurrentStep | src/store/formStore.ts:258 | the step cursor takes the given index, unchecked |
| FormStore.Store.NextStep | src/store/formStore.ts:260-265 | the cursor advances only when there is a form and a later step, so a cursor on a step stays on a step |
| FormStore.Store.PreviousStep | src/store/formStore.ts:267-272 | the cursor goes back only when it is above 0, so a cursor on a step stays on a step |
| FormStore.Store.AddResponse | src/store/formStore.ts:380-389 | the stamped response goes last in the log; it is last in its form's list, and every other form's list is unchanged |
| FormStore.Store.GetResponsesForForm | src/store/formStore.ts:397-400 | returns exactly the form's responses in log order, and each carries the form id |
| FormStore.Store.ValidateField | src/store/formStore.ts:402-438 | the message `Validation.ValidateField` gives for the current form, and none without a form |
| FormStore.Store.ValidateForm | src/store/formStore.ts:440-460 | false and no change without a form; otherwise the errors become `ErrorsOf` of every field, and the result is true exactly when every field passes, exactly when the error map is empty |
| FormStore.Store.ClearValidationErrors | src/store/formStore.ts:462 | only the error map changes, to empty |
| FormBuilder.DraftOf | src/components/FormBuilder.tsx:93-98 | the field data of a palette drop: the template's type and label with the defaults spread over them |
| FormBuilder.DraftOfDefaults | src/components/FormBuilder.tsx:93-98 | because the defaults are spread last, a given default label or `required` wins even when falsy; otherwise the label falls back to the template's and `required` to false |
| FormBuilder.Moved | src/components/FormBuilder.tsx:110-112 | remove-then-insert keeps the length and the multiset of ids, and puts the moved id at the clamped insertion point |
| FormBuilder.MovedElements | src/components/FormBuilder.tsx:110-112 | element by element, ids outside the stretch between the two positions stay put, those inside shift by one, and the moved id lands at the insertion point |
| FormBuilder.MovedToEnd | src/components/FormBuilder.tsx:108-112 | a move past the end puts the id last and keeps the others in order |
| FormBuilder.MoveInPlace | src/components/FormBuilder.tsx:110-112 | the in-place shift leaves the array equal to `Moved` of its old contents |
| FormBuilder.DragEnd | src/components/FormBuilder.tsx:79-134 | no target or no form gives no call; a drop gives at most two calls |
| FormBuilder.StepDrop | src/components/FormBuilder.tsx:104-116 | a step-zone drop gives one reorder of that step exactly when the target has the `step_` prefix, a step carries it and the dragged id is among its fields; otherwise none |
| FormBuilder.FieldDrop | src/components/FormBuilder.tsx:120-133 | a field-on-field drop gives one reorder of the step under the cursor exactly when the two ids differ, the cursor is in range and both ids are fields of that step; otherwise none |
| FormBuilder.FieldDragCalls | src/components/FormBuilder.tsx:103-133 | dragging an existing field onto a target of a loaded form makes the step-zone call, if any, then the field-on-field call, if any |
| FormBuilder.MovedKeepsOthers | src/components/FormBuilder.tsx:110-113 | apart from the moved id, remove-then-insert keeps every id in its relative order |
| FormBuilder.IdArray | src/components/FormBuilder.tsx:111 | the copied array holds the step's field ids in order |
| FormBuilder.PaletteDrop | src/components/FormBuilder.tsx:89-101 | a palette drag gives one `addField` to the drop step exactly when the target is a `step_` zone and the template is known, else nothing; the label and `required` follow the defaults |
| FormBuilder.FieldDragPermutes | src/components/FormBuilder.tsx:103-133 | every call from dragging an existing field is a reorder whose ids rearrange the field ids of a step carrying the call's step id |
| FormBuilder.StepDropMovesToEnd | src/components/FormBuilder.tsx:104-116 | a drop on a step zone sends that step's ids with the dragged id moved last and the others in order |
| FormBuilder.FieldDropTakesTargetPlace | src/components/FormBuilder.tsx:120-133 | a drop on another field reorders the step under the cursor: the ids become `Moved` of its ids from the dragged position to the target's, the dragged id takes the target's old position and the other ids keep their relative order |
| FormBuilder.HandleDragEnd | src/components/FormBuilder.tsx:79-134 | the calls computed with the copied arrays and in-place moves are exactly those `DragEnd` specifies |
| FormBuilder.FormatLastSaved | src/components/FormBuilder.tsx:136-149 | "Never" exactly when nothing was saved |
| FormBuilder.FormatLastSavedTruthful | src/components/FormBuilder.tsx:136-149 | read back, every message names a span containing the real elapsed time, a minute wide below an hour and an hour wide from there on |
| ResponsesDashboard.FormResponses | src/components/ResponsesDashboard.tsx:16-19 | nothing without a form; otherwise exactly `ResponsesFor` the form's id: the log entries carrying it, in log order |
| ResponsesDashboard.CellText | src/components/ResponsesDashboard.tsx:35-38 | a cell is empty exactly when the value is falsy |
| ResponsesDashboard.Header | src/components/ResponsesDashboard.tsx:24-28 | `Response ID`, `Submitted At`, then one cell per field of the form |
| ResponsesDashboard.Row | src/components/ResponsesDashboard.tsx:32-38 | a row is as wide as the header, and starts with the response id and its rendered time |
| ResponsesDashboard.RowMatchesHeader | src/components/ResponsesDashboard.tsx:24-38 | each row has as many cells as the header; under each field's label is that response's value for the field, empty when missing or falsy |
| ResponsesDashboard.ExportToCSV | src/components/ResponsesDashboard.tsx:21-40 | nothing exactly when there is no form or no matching response |
| ResponsesDashboard.ExportReadsBack | src/components/ResponsesDashboard.tsx:30-40 | without line breaks in cells, the text has one line plus one per matching response; without commas too, each line splits back into the header or its row |
| ResponsesDashboard.CommaInLabelShiftsColumns | src/components/ResponsesDashboard.tsx:24-31 | a label with a comma makes a three-column header read back as four cells |
| ResponsesDashboard.ExportToJSON | src/components/ResponsesDashboard.tsx:51-60 | nothing exactly when there is no form or no matching response; otherwise `totalResponses` equals the number of listed responses and an independent count of matching log entries, and every listed response carries the form id |

## Left out

- Local storage:
  - `saveToLocalStorage`, `loadFromLocalStorage`, the auto-save writes after each action, and `lastSaved`. They are browser storage I/O.
  - The store's `addResponse` persistence write. Only the in-memory append is modelled.
  - The initial read of the stored responses. It is a constructor parameter.
- `saveTemplate`, `loadTemplate` and `generateShareableLink`: local storage, `window.location` and the asynchronous clipboard API.
- The regular-expression engine behind `validation.pattern`. It is a parameter `test`. An invalid pattern, which makes `new RegExp` throw, is not modelled.
- String length counts characters. JavaScript counts UTF-16 code units, so a length rule can differ for characters outside the Basic Multilingual Plane.
- Numbers are integers:
  - non-integer or NaN `minLength`, `maxLength`, step indices and timestamps are not modelled;
  - `Date` values are integer milliseconds.
  - integers are unbounded, while JavaScript numbers are doubles: `${n}` switches to exponent notation from 10^21 on, and integers above 2^53 lose precision. Bounds, counts and times that large are not modelled.
- A patch key that is present but holds `undefined`: in the source, spreading it erases the property. Here a property is either absent from the patch or set to a value.
- `toLocaleString`, `toISOString`, `JSON.stringify`, and the Blob/URL download in the dashboard. The timestamp renderings are parameters, and the JSON export is modelled as the object before serialisation.
- React state and effects: the `activeId` state, the default form created on first load, and rendering.
- Response values are strings, booleans or absent. Other JSON values (arrays, numbers) that `data` could hold are not modelled.
- FormBuilder.FieldDragPermutes: states that every reorder rearranges the field ids of some step with that id. When several steps share the id, `reorderFields` applies the list to each of them, and only the step it came from is guaranteed a permutation.
