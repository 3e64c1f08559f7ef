# Grocery list state container, in Dafny

This project models the grocery-list part of a small React front end. It covers three pieces:

- The `GroceryProvider` state container. It holds an ordered list of items `{id, name, quantity, unit}` and a list title. It offers `addItem`, `removeItem`, `clearItems` and `updateTitle`. It loads from and saves to the session-scoped storage slot `"groceryData"`.
- The "Generate PDF" button. It decides which items reach the PDF generator, whether the generator runs, and when the button is disabled.
- The add-item form's submit handler. It rejects blank names, trims accepted ones, hands the item to the store and resets the form.

Modules, one per source file or built-in they rest on:

- `GroceryTypes` (`types.dfy`): the records of `src/types/index.ts`.
- `GroceryContext` (`grocery_context.dfy`): the provider. It has two classes:
  - `GroceryStore`, with fields `items` and `title` and one method per operation.
  - `SessionStorage`, a map from keys to stored texts.
  Pure functions beside them state what load and save mean (`Restored`, `Serialized`) and what removal keeps (`WithoutId`). Lemmas state the properties.
- `GeneratePdf` (`generate_pdf.dfy`) and `GroceryForm` (`grocery_form.dfy`): the two validators, as pure functions.
- `JsString` (`js_string.dfy`): ECMAScript's `String.prototype.trim`. It strips WhiteSpace and LineTerminator code points from both ends.
- `JsArray` (`js_array.dfy`): ECMAScript's `Array.prototype.filter`. It comes with an independent description: the one subsequence that keeps exactly the satisfying elements, each as often as it occurs (`FilterIsUnique`).
- `Wrappers` (`wrappers.dfy`): `Option`, for `undefined` and `null`.

How the source's effects become Dafny:

- Stored text is described by what `JSON.parse` and the two field reads make of it (`SlotText`, `Parsed`, `ItemsField`, `TitleField`). It can be:
  - the empty string, which is falsy and never parsed;
  - text on which parsing or reading a field throws;
  - a record whose `items` is or is not an array, and whose `title` is or is not a string.
- Ids are an argument of `AddItem`.
- The load and save effects are explicit calls: `Load`, `Save`.
- `SessionScenario` is a verified client. It runs a concrete session: add two items, rename the list, save, reload, remove the first item, clear.

The intended behaviour of the list differs from the code in a few places. The model follows the code:

- Removal is meant to drop the one item with the id. `removeItem` drops every item carrying the id, because it filters on `item.id !== id`.
- Ids are meant to be unique. The code never checks collisions. Uniqueness is proved only for ids that are fresh when added (`AddFreshIdKeepsIdsUnique`, `RemoveKeepsIdsUnique`).
- Items are meant to have a non-empty name and a positive quantity. The store does not check either. Only the form validates.
- A failing PDF generator is meant to show a notification. `handleGeneratePdf` awaits the generator without a `catch`, so the failure escapes the handler.
- Loading and saving are meant to fail quietly. Only the load effect catches its failures. The save effect calls `sessionStorage.setItem` without a `try`/`catch`, so a failing write (quota exceeded, storage denied) escapes it.

## Model

| member | source | states |
|---|---|---|
| `JsString.Trim` | src/components/Grocery/GroceryForm.tsx:31 | the trimmed string is no longer than the input and is empty or starts and ends with a non-whitespace character |
| `JsString.TrimIsInfix` | src/components/Grocery/GroceryForm.tsx:37 | the trimmed name is a contiguous piece of the input, and everything cut off on either side is whitespace |
| `JsString.TrimBlankIff` | src/components/Grocery/GroceryForm.tsx:31 | a string trims to `''` exactly when all its characters are whitespace |
| `JsString.TrimIdempotent` | src/components/Grocery/GroceryForm.tsx:37 | trimming an already trimmed string changes nothing |
| `JsArray.Filter` | src/context/GroceryContext.tsx:50 | `filter` never lengthens the array, and every element it returns satisfies the callback |
| `JsArray.FilterIsSubsequence` | src/context/GroceryContext.tsx:50 | the kept elements are a subsequence of the input, so their relative order is preserved |
| `JsArray.FilterCount` | src/context/GroceryContext.tsx:50 | each element satisfying the callback is kept as often as it occurs, and each other element is dropped entirely |
| `JsArray.FilterIsUnique` | src/context/GroceryContext.tsx:50 | any subsequence with exactly those element counts is the filter's result, so the two facts above characterise `filter` completely |
| `JsArray.SubsequenceCount` | src/context/GroceryContext.tsx:50 | a subsequence never holds an element more often than its source |
| `JsArray.FilterKeepsAll` | src/context/GroceryContext.tsx:50 | when every element satisfies the callback the result equals the input |
| `JsArray.FilterEmptyIff` | src/components/Grocery/GeneratePdfButton.tsx:17-18 | the result is empty exactly when no element satisfies the callback |
| `JsArray.FilterIdempotent` | src/context/GroceryContext.tsx:50 | filtering twice with the same callback equals filtering once |
| `JsArray.FilterDropsSome` | src/context/GroceryContext.tsx:50 | if some element fails the callback the result is strictly shorter |
| `GroceryContext.Initial` | src/context/GroceryContext.tsx:16-17 | the initial state has no items and the title `"मेरी ग्रोसरी लिस्ट"` |
| `GroceryContext.SaveLoadRoundTrip` | src/context/GroceryContext.tsx:20-37 | loading what save wrote, into a store in any state, reproduces exactly the saved title and items, ids included |
| `GroceryContext.RestoreUnreadableKeepsState` | src/context/GroceryContext.tsx:21-30 | a missing slot, an empty stored string or text whose parse throws leaves the state as it was, with no error escaping |
| `GroceryContext.RestoreAdoptsOnlyWellShapedFields` | src/context/GroceryContext.tsx:25-26 | the items change only to a parsed `items` array and the title only to a parsed `title` string |
| `GroceryContext.RestoreFieldsIndependent` | src/context/GroceryContext.tsx:25-26 | the restored items do not depend on the title field or the current title, and the restored title does not depend on the items field or the current items |
| `GroceryContext.RemoveKeepsExactlyOtherIds` | src/context/GroceryContext.tsx:49-51 | after removal no item carries the id; the remaining items are a subsequence of the old list; each item with a different id is kept as often as it occurred |
| `GroceryContext.RemoveAbsentIsIdentity` | src/context/GroceryContext.tsx:50 | removing an id no item carries leaves the list identical |
| `GroceryContext.RemovePresentShrinks` | src/context/GroceryContext.tsx:50 | removing an id some item carries makes the list strictly shorter |
| `GroceryContext.RemoveIdempotent` | src/context/GroceryContext.tsx:50 | removing the same id twice equals removing it once |
| `GroceryContext.AddFreshIdKeepsIdsUnique` | src/context/GroceryContext.tsx:40-46 | appending an item with an id not yet in the list keeps all ids distinct |
| `GroceryContext.RemoveKeepsIdsUnique` | src/context/GroceryContext.tsx:49-51 | removal keeps all ids distinct |
| `GroceryContext.FilterKeepsIdsUnique` | src/context/GroceryContext.tsx:50 | any filter of a list with distinct ids has distinct ids |
| `GroceryContext.SessionStorage.GetItem` | src/context/GroceryContext.tsx:22 | `getItem` yields a value exactly when the key has an entry, and then that entry |
| `GroceryContext.SessionStorage.SetItem` | src/context/GroceryContext.tsx:36 | `setItem` overwrites the key's entry and leaves every other key unchanged |
| `GroceryContext.GroceryStore.constructor` | src/context/GroceryContext.tsx:16-17 | a new store is in the initial state |
| `GroceryContext.GroceryStore.Load` | src/context/GroceryContext.tsx:20-31 | the new state is the old state restored from the slot's contents, so every restore lemma above applies |
| `GroceryContext.GroceryStore.Save` | src/context/GroceryContext.tsx:34-37 | the `"groceryData"` entry becomes the serialized `{items, title}`, other keys are unchanged, and the slot is in sync with the store |
| `GroceryContext.GroceryStore.AddItem` | src/context/GroceryContext.tsx:40-46 | the list grows by exactly one item, the new item is last and carries the given id and the caller's name, quantity and unit, earlier items are unchanged and in order, and the title is unchanged |
| `GroceryContext.GroceryStore.RemoveItem` | src/context/GroceryContext.tsx:49-51 | the list becomes the id-filtered old list (see the removal lemmas) and the title is unchanged |
| `GroceryContext.GroceryStore.ClearItems` | src/context/GroceryContext.tsx:54-56 | the list becomes empty and the title is unchanged |
| `GroceryContext.GroceryStore.UpdateTitle` | src/context/GroceryContext.tsx:59-61 | the title becomes the argument verbatim, with no trimming and empty allowed, and the items are unchanged |
| `GroceryContext.Reload` | src/context/GroceryContext.tsx:20-37 | a fresh store loaded from a slot that is in sync with a store has that store's title and items |
| `GeneratePdf.DownloadFileName` | src/utils/generatePDF.tsx:11 | the file name is the title followed by `-list.pdf` |
| `GeneratePdf.HandleGeneratePdf` | src/components/Grocery/GeneratePdfButton.tsx:16-24 | the generator runs exactly when at least one item is valid; it then receives the valid items and the title unchanged; otherwise the error branch is taken |
| `GeneratePdf.GenerateButtonDisabled` | src/components/Grocery/GeneratePdfButton.tsx:31 | the button is disabled exactly when the list is empty |
| `GeneratePdf.ValidItemsAreValid` | src/components/Grocery/GeneratePdfButton.tsx:17 | every item handed to the generator has a name containing a non-whitespace character and a quantity above 0 |
| `GeneratePdf.ValidItemsKeepOrderAndAll` | src/components/Grocery/GeneratePdfButton.tsx:17 | the valid items are a subsequence of the list, and every valid item is kept as often as it occurs |
| `GeneratePdf.DisabledListNeverGenerates` | src/components/Grocery/GeneratePdfButton.tsx:31 | an empty list never reaches the generator |
| `GeneratePdf.AllInvalidReportsError` | src/components/Grocery/GeneratePdfButton.tsx:17-23 | a list whose items are all blank-named or have no positive quantity takes the error branch |
| `GroceryForm.QuantityFromInput` | src/components/Grocery/GroceryForm.tsx:86-89 | an empty quantity input becomes `undefined`, any other input becomes its `parseFloat` value |
| `GroceryForm.OnSubmit` | src/components/Grocery/GroceryForm.tsx:30-44 | a name that is empty or all whitespace is rejected with the `name` error and the form kept; otherwise the item gets the trimmed name and the quantity and unit unchanged, and the form is reset to `''`, `undefined`, `'kg'` |
| `GroceryForm.AcceptedNameIsTrimmed` | src/components/Grocery/GroceryForm.tsx:31-37 | the name handed to `addItem` is non-empty, has no whitespace at either end and is its own trim |
| `GroceryForm.AcceptedItemIsValidForPdf` | src/components/Grocery/GroceryForm.tsx:36-40 | an item added through the form passes the PDF button's validity filter |
| `GroceryForm.SubmitToStore` | src/components/Grocery/GroceryForm.tsx:30-44 | an accepted submission appends exactly one item, the outcome's item with the given id; a rejected one leaves the items unchanged; the title never changes |

## Left out

- Rendering, toasts, `console.error`, the 3D car showcase, the header and the list component are not modelled. The header and list only forward to `updateTitle` and `removeItem`.
- The PDF renderer and the browser download are not modelled. `HandleGeneratePdf` returns the request the generator would receive. A generator failure is not modelled.
- Id generation from `Date.now()` and `Math.random()` is not modelled, because it is not deterministic. The id is an argument of `AddItem`.
- `GroceryContext.GroceryStore.Save`: a failing `setItem` (quota exceeded, storage denied) is not modelled. The write always succeeds here, while in the code the error escapes the save effect uncaught.
- `JSON.parse` and `JSON.stringify` are not modelled. Stored text is described by its parse result. The model assumes the JSON round trip is exact on `{items, title}`. That holds for strings and finite numbers, but a NaN or infinite quantity would come back as `null`.
- Elements of a restored `items` array are taken to be grocery items. The code does not check their shape. A malformed element (say, a quantity that is a string) is not modelled.
- React effect scheduling is not modelled. That includes render order, the save effect also running with the defaults on first mount, and effects running twice in development. `Load` and `Save` are explicit calls.
- `useGrocery` throwing outside a provider is not modelled.
- `GroceryForm.OnSubmit`: the quantity field's declared rules (present, at least 1) are a precondition, because react-hook-form checks them before calling the handler. How react-hook-form enforces rules is not modelled. The name field's `required` rule is not a precondition, because the handler's own blank check covers it.
- The `UNITS` constant is not modelled, because its module is not part of this model. Units pass through unchecked.
- Quantities are `real`. NaN and infinities are not modelled. The code never does arithmetic on quantities.
- Characters are Unicode scalar values. JavaScript strings are UTF-16 code units. `trim` only inspects whitespace code points, all of which are single code units.
