# Form draft, table rows and delete modal: a Dafny model

This project models the client-side logic of a small Next.js dashboard app. The rest of the app is rendering and library wiring. The model covers:

- **The form-draft reducer** (`formSlice.ts`). It holds one record of five string fields and an `isReadOnly` flag. `saveForm` merges a payload into the record and forces it read-only. `resetForm` restores the initial record. `setReadOnly` changes only the flag. The reducer is the pure function `FormSlice.Reduce` on record values. The Redux store that holds the record is the class `FormSlice.Store`.
- **The submit-form page** (`SubmitForm/page.tsx`). Its local copy of the five fields starts empty. A load effect copies the store's fields in when the store is read-only, and an absent field becomes `""`. A change handler turns `null` into `""`. Submit dispatches one `saveForm` with the local values and then pushes `/profile/user/dashboard`. The page is the class `SubmitForm.SubmitFormPage`, which holds a store and a router.
- **Row lists** on the two archive pages and the dropdown-table page. A row is appended whose id and name come from the current length. Rows are deleted by a selection of ids, keeping their order. A canned table is chosen from a fixed map. These are sequence functions in `Rows` and `DropdownTable`, and each page is a class whose state cells the handlers reassign.
- **The confirm-before-delete modal**. It lives in `CustomDataTable.tsx` and again in `src/app/ArchiveTable/page.tsx`. A delete click captures the selection and opens the modal. Confirm hands the captured ids to the deleter and closes the modal. Cancel only closes it. The pure state machine is `DeleteModal`. The two components are classes that follow it.
- **Dropdown normalisation** (`GlobalDropdown.tsx`). String items pass through unchanged and object items become their `text`. The module also models the label fallback and the `onChange` fallback.

Collaborators are modelled abstractly. Navigation is `Navigation.Router`, an append-only log of pushed paths. Store dispatch is a method call, `FormSlice.Store.Dispatch`, which applies the reducer. A selection from Carbon's `DataTable` is modelled by the ids of the selected rows, because `id` is the only field the code reads from them. The component's callbacks (`onDeleteRows`, `onAddRow`) are recorded as a log of requests. In the dashboard archive page they are also wired to the page's own handlers.

Two results are proved about derived ids. Ids created only by appending are `"1".."n"` and distinct (`Rows.NumberedIdsDistinct`, which rests on the decimal round trip `Rows.ParseNatToString`). Ids are still not unique in general. On an archive page, deleting row "1" and then adding a row gives a second row "3". On the dropdown-table page, choosing "Table 2" and adding a row gives a second row "3" named "Item C".

## Model

| member | source | states |
|---|---|---|
| `FormSlice.Save` | src/redux/slices/formSlice.ts:25-30 | after `saveForm(p)` the record is read-only; a field present in `p` takes the payload's value and an absent field keeps its prior value |
| `FormSlice.WithReadOnly` | src/redux/slices/formSlice.ts:34-36 | after `setReadOnly(b)` the flag is `b` and all five fields are unchanged |
| `FormSlice.UndefinedStateIsInitial` | src/redux/slices/formSlice.ts:12-23 | the reducer on an undefined state and a foreign action yields five empty fields with `isReadOnly` false |
| `FormSlice.SaveAlwaysReadOnly` | src/redux/slices/formSlice.ts:26-29 | `saveForm` yields a read-only record for every payload; an `isReadOnly` key in the payload has no effect; the empty payload only sets the flag |
| `FormSlice.SaveFullPayload` | src/redux/slices/formSlice.test.ts:62-77 | a payload with all five fields determines the whole record, whatever the prior state was |
| `FormSlice.SaveIdempotent` | src/redux/slices/formSlice.ts:26-29 | saving the same payload twice equals saving it once |
| `FormSlice.ResetFromAnyState` | src/redux/slices/formSlice.ts:32 | `resetForm` from any state, defined or undefined, yields the initial record |
| `FormSlice.SetReadOnlyIdempotent` | src/redux/slices/formSlice.ts:34-36 | `setReadOnly(b)` equals the prior record with the flag set to `b`; applying it twice equals applying it once |
| `FormSlice.Store.constructor` | src/redux/slices/formSlice.ts:21-24 | a new store holds the initial record and has seen no action |
| `FormSlice.Store.Dispatch` | src/redux/slices/formSlice.ts:21-41 | the new state is the reducer applied to the old state and the action; the action is appended to the dispatch log |
| `Navigation.Router.constructor` | src/app/profile/user/dashboard/SubmitForm/page.tsx:27 | a fresh router has pushed nothing |
| `Navigation.Router.Push` | src/app/profile/user/dashboard/SubmitForm/page.tsx:63 | the pushed path is appended to the navigation log |
| `SubmitForm.Loaded` | src/app/profile/user/dashboard/SubmitForm/page.tsx:42-52 | when the store is read-only, each local field becomes the store's value, and an absent field becomes `""`; otherwise the local values are unchanged |
| `SubmitForm.Changed` | src/app/profile/user/dashboard/SubmitForm/page.tsx:55-57 | the changed field becomes the value, and `null` becomes `""`; every other field is unchanged |
| `SubmitForm.AsPayload` | src/app/profile/user/dashboard/SubmitForm/page.tsx:62 | the submitted payload carries all five fields with the local values and no flag |
| `SubmitForm.GatingFollowsMode` | src/app/profile/user/dashboard/SubmitForm/page.tsx:78-128 | the submit button is offered exactly in Editing mode; every input is disabled exactly in Viewing mode |
| `SubmitForm.LastChangeWins` | src/app/profile/user/dashboard/SubmitForm/page.tsx:56 | of two successive changes to one field, only the last value remains |
| `SubmitForm.ChangesCommute` | src/app/profile/user/dashboard/SubmitForm/page.tsx:56 | changes to two different fields can be applied in either order |
| `SubmitForm.LoadIdempotent` | src/app/profile/user/dashboard/SubmitForm/page.tsx:42-52 | re-running the load effect on the same store record changes nothing |
| `SubmitForm.LoadCopiesStore` | src/app/profile/user/dashboard/SubmitForm/page.tsx:43-50 | on a read-only store record, the load effect copies the five fields exactly |
| `SubmitForm.SubmitStoresValues` | src/app/profile/user/dashboard/SubmitForm/page.tsx:60-64 | after submit the store holds exactly the local values, is read-only and in Viewing mode, and no longer offers submit |
| `SubmitForm.SubmitThenLoadRoundTrip` | src/app/profile/user/dashboard/SubmitForm/page.tsx:42-64 | a later visit's load step gives back the local values that were submitted |
| `SubmitForm.SubmitFormPage.constructor` | src/app/profile/user/dashboard/SubmitForm/page.tsx:33-39 | the local values start as five empty strings |
| `SubmitForm.SubmitFormPage.LoadSaved` | src/app/profile/user/dashboard/SubmitForm/page.tsx:42-52 | the new local values are the load step applied to the store's record and the old values |
| `SubmitForm.SubmitFormPage.HandleChange` | src/app/profile/user/dashboard/SubmitForm/page.tsx:55-57 | the new local values are the old ones with that one field changed |
| `SubmitForm.SubmitFormPage.HandleSubmit` | src/app/profile/user/dashboard/SubmitForm/page.tsx:60-64 | exactly one `saveForm` with the local values is dispatched; the store state is the save applied to the old state; the dashboard path is pushed once |
| `SubmitForm.FillAndSubmit` | src/__tests__/Submitform.test.tsx:318-377 | on a fresh store, filling in the five fields (one of them cleared through `null` and then refilled) and submitting stores exactly those values read-only, with one push of the dashboard path |
| `Rows.NatToString` | src/app/profile/user/dashboard/ArchiveTable/page.tsx:25 | `n.toString()` is a non-empty string of decimal digits with no leading zero (except for 0 itself) |
| `Rows.ParseNatToString` | src/app/profile/user/dashboard/ArchiveTable/page.tsx:25 | reading a rendered count back as decimal digits gives the count |
| `Rows.NatToStringInjective` | src/app/profile/user/dashboard/ArchiveTable/page.tsx:25 | different counts render as different id strings |
| `Rows.AddNumbered` | src/app/profile/user/dashboard/ArchiveTable/page.tsx:23-30 | exactly one row is appended, with id `str(n+1)`, name `"Item " + id` and status "Active", where n is the old length; the prefix is unchanged |
| `Rows.FromCharCode` | src/app/profile/user/dashboard/dropdown-table/page.tsx:71 | `String.fromCharCode(u)` is the character with code `u` modulo 2^16 |
| `Rows.AddLettered` | src/app/profile/user/dashboard/dropdown-table/page.tsx:68-75 | exactly one row is appended, with id `str(n+1)`, status "Active" and name `"Item " + String.fromCharCode(65+n)` for every n (a letter A..Z while n < 26); the prefix is unchanged |
| `Rows.WithoutIds` | src/app/profile/user/dashboard/ArchiveTable/page.tsx:33-38 | exactly the rows whose id is not selected survive, in their original relative order; the new length is the old length minus the number of selected rows |
| `Rows.DeleteNothing` | src/app/profile/user/dashboard/ArchiveTable/page.tsx:33-38 | deleting with an empty selection is a no-op |
| `Rows.DeleteIdempotent` | src/app/profile/user/dashboard/ArchiveTable/page.tsx:33-38 | deleting the same selection twice equals deleting it once |
| `Rows.DeleteAbsentIds` | src/app/profile/user/dashboard/ArchiveTable/page.tsx:33-38 | deleting ids that match no row is a no-op |
| `Rows.NumberedByAppending` | src/app/profile/user/dashboard/ArchiveTable/page.tsx:16-30 | the initial rows carry ids "1".."3"; appending keeps row i's id equal to `str(i+1)` |
| `Rows.NumberedIdsDistinct` | src/app/profile/user/dashboard/ArchiveTable/page.tsx:25 | while rows are only appended, no two rows share an id |
| `Rows.DeleteThenAddRepeatsId` | src/app/profile/user/dashboard/ArchiveTable/page.tsx:25-37 | deleting "1" from the initial rows and then adding a row yields two rows with id "3" |
| `DeleteModal.Step` | src/components/shared/datatable/CustomDataTable.tsx:51-59 | only confirm hands rows to the deleter, and it hands the captured rows; only a delete click leaves the modal open |
| `DeleteModal.CapturedIsLastClick` | src/components/shared/datatable/CustomDataTable.tsx:51-54 | after any sequence of events, the captured rows are the selection of the last delete click |
| `DeleteModal.ConfirmHandsLastClick` | src/components/shared/datatable/CustomDataTable.tsx:52-58 | a confirm hands over exactly one batch, the selection captured at the last click rather than any later one, and closes the modal |
| `DeleteModal.CancelOnlyCloses` | src/components/shared/datatable/CustomDataTable.tsx:162-169 | cancel hands nothing over and changes only the open flag; a delete click hands nothing over |
| `DeleteModal.HandedOncePerConfirm` | src/components/shared/datatable/CustomDataTable.tsx:56-59 | the deleter is called exactly as many times as confirm was pressed |
| `DataTable.CustomDataTable.constructor` | src/components/shared/datatable/CustomDataTable.tsx:48-49 | the modal starts closed with nothing captured, and no callback has run |
| `DataTable.CustomDataTable.HandleDeleteClick` | src/components/shared/datatable/CustomDataTable.tsx:51-54 | the selection is stored and the modal opens; `onDeleteRows` is not called |
| `DataTable.CustomDataTable.ConfirmDelete` | src/components/shared/datatable/CustomDataTable.tsx:56-59 | `onDeleteRows` is called once with the stored rows, which stay stored, and the modal closes |
| `DataTable.CustomDataTable.CloseModal` | src/components/shared/datatable/CustomDataTable.tsx:164-168 | both cancel paths close the modal, keep the stored rows and call no callback |
| `DataTable.CustomDataTable.AddNew` | src/components/shared/datatable/CustomDataTable.tsx:125 | "Add new" only forwards one call to `onAddRow` |
| `DashboardArchiveTable.DashboardArchivePage.constructor` | src/app/profile/user/dashboard/ArchiveTable/page.tsx:16-20 | the rows start as "1" Active, "2" Inactive and "3" Pending |
| `DashboardArchiveTable.DashboardArchivePage.AddNewRow` | src/app/profile/user/dashboard/ArchiveTable/page.tsx:23-30 | the new rows are the numbered append of the old rows |
| `DashboardArchiveTable.DashboardArchivePage.DeleteSelectedRows` | src/app/profile/user/dashboard/ArchiveTable/page.tsx:33-38 | the new rows are the old rows without the selected ids |
| `DashboardArchiveTable.DashboardArchivePage.AddNewClicked` | src/app/profile/user/dashboard/ArchiveTable/page.tsx:45-50 | the table forwards one `onAddRow` call and the page appends one numbered row |
| `DashboardArchiveTable.DashboardArchivePage.DeleteConfirmed` | src/app/profile/user/dashboard/ArchiveTable/page.tsx:45-50 | confirming in the table removes exactly the rows captured at click time and closes the modal |
| `ArchiveTable.ArchivePage.constructor` | src/app/ArchiveTable/page.tsx:39-48 | there are three rows "1".."3", the modal is closed and the selection is empty |
| `ArchiveTable.ArchivePage.AddNewRow` | src/app/ArchiveTable/page.tsx:51-58 | one numbered row is appended and the modal is unchanged |
| `ArchiveTable.ArchivePage.OpenDeleteModal` | src/app/ArchiveTable/page.tsx:61-64 | the selection is recorded and the modal opens; the rows are unchanged |
| `ArchiveTable.ArchivePage.ConfirmDelete` | src/app/ArchiveTable/page.tsx:67-73 | the rows with a recorded id are removed, survivors keep their order, the modal closes, and the selection is not cleared |
| `ArchiveTable.ArchivePage.CloseModal` | src/app/ArchiveTable/page.tsx:180-191 | `onClose` and `onRequestClose` change only the modal flag |
| `ArchiveTable.ConfirmTwice` | src/app/ArchiveTable/page.tsx:67-73 | because the selection stays recorded, a second confirm leaves the rows as the first one left them |
| `GlobalDropdown.Texts` | src/components/shared/dropdown/GlobalDropdown.tsx:29 | object items map to their `text`, with the same length and order |
| `GlobalDropdown.FormattedItems` | src/components/shared/dropdown/GlobalDropdown.tsx:26-29 | string items pass through unchanged; object items become their texts in order; an empty list yields an empty list |
| `GlobalDropdown.Label` | src/components/shared/dropdown/GlobalDropdown.tsx:35 | the label is the selected item when it is non-empty, otherwise "Select an option"; it is never empty |
| `GlobalDropdown.Forwarded` | src/components/shared/dropdown/GlobalDropdown.tsx:38 | `onChange` receives the chosen item, or `""` when there is none |
| `GlobalDropdown.ForwardedIsOfferedOrEmpty` | src/components/shared/dropdown/GlobalDropdown.tsx:38 | the forwarded value is always one of the offered items or `""` |
| `DropdownTable.ItemsAreNoneThenKeys` | src/app/profile/user/dashboard/dropdown-table/page.tsx:106 | the dropdown offers "None" followed by exactly the `tableData` keys, each once |
| `DropdownTable.TableChange` | src/app/profile/user/dashboard/dropdown-table/page.tsx:57-65 | "None", `null` and `""` clear the chosen table and the rows; a key k sets the chosen table to k and the rows to `tableData[k]` |
| `DropdownTable.ShownIffTableChosen` | src/app/profile/user/dashboard/dropdown-table/page.tsx:112 | after a change the table is shown exactly when a `tableData` key was chosen |
| `DropdownTable.DropdownFeedsTableChange` | src/app/profile/user/dashboard/dropdown-table/page.tsx:102-109 | every value the dropdown can forward is one that `handleTableChange` handles |
| `DropdownTable.Table2AddRepeatsId` | src/app/profile/user/dashboard/dropdown-table/page.tsx:28-31 | choosing "Table 2" and adding a row yields a second row with id "3" and name "Item C" |
| `DropdownTable.DropdownTablePage.constructor` | src/app/profile/user/dashboard/dropdown-table/page.tsx:39-46 | no table is chosen, the rows are empty, and the text input and `fileName` are `""` |
| `DropdownTable.DropdownTablePage.HandleChange` | src/app/profile/user/dashboard/dropdown-table/page.tsx:49-54 | only that key of `formValues` changes |
| `DropdownTable.DropdownTablePage.SetTextInput` | src/app/profile/user/dashboard/dropdown-table/page.tsx:97 | only the text input changes |
| `DropdownTable.DropdownTablePage.HandleTableChange` | src/app/profile/user/dashboard/dropdown-table/page.tsx:57-65 | the chosen table and the rows become those given by `TableChange`; nothing else changes |
| `DropdownTable.DropdownTablePage.HandleAddRow` | src/app/profile/user/dashboard/dropdown-table/page.tsx:68-75 | the rows become the lettered append of the old rows; nothing else changes |
| `DropdownTable.DropdownTablePage.DeleteRows` | src/app/profile/user/dashboard/dropdown-table/page.tsx:118-124 | the survivors are exactly the rows whose id matches no selected id, in order; nothing else changes |

## Left out

- Object identity is left out. `resetForm` returns the shared `initialState` constant, and Immer and Redux decide whether a record is a new object. The model treats records as values and proves value equality only.
- Payload contents beyond the five fields and `isReadOnly` are left out. `Object.assign` would also copy unknown keys, and it would copy a key present with value `undefined`. The payload's type excludes both.
- `SubmitForm.SubmitFormPage.HandleChange` takes its field as one of the five fields. In the source the id is a string, and an unknown id would add a new key. Every call site passes one of the five ids.
- `DropdownTable.TableChange` and `DropdownTable.DropdownTablePage.HandleTableChange` require the item to be `null`, `""`, `"None"` or a `tableData` key. Any other non-empty string would leave `rows` undefined, and the model has no undefined state. `DropdownTable.DropdownFeedsTableChange` proves that the dropdown forwards nothing else.
- `Rows.FromCharCode` does not model lone surrogates. When `65 + n` modulo 2^16 falls in D800–DFFF (55,231 rows or more), JavaScript yields a lone surrogate code unit. A Dafny `char` cannot hold one, so the model yields U+FFFD there.
- React scheduling is left out: batched updates, stale closures and effect timing. Each handler runs to completion before the next, and the load effect is a method that the host calls on mount and after each store change.
- Carbon `DataTable` internals are left out: row selection, search (`onInputChange`), batch-action visibility and `rows` re-shaping. The selection is an input given as the selected rows' ids.
- Rendering, CSS classes, translations, `console.log`, and the toolbar's `alert`, "Save" and "Download" actions are left out. They only log or display.
- The login, signup, products, header and provider code is not part of this model. It is schema validation, storage, fetching and i18n wiring.
