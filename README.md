# Product list form: a Dafny model

This project models the logic of the product-list component in
`src/App.jsx`. The component keeps a list of product records (id, name,
description, price, category, release date, stock, active flag). It also
keeps a form draft with per-field error messages, an optional edit
target, and a toast notification. On submit it validates the draft. If the
draft passes, it creates a record (prepended to the list) or updates the
record being edited, in place. Records are deleted after a confirmation
prompt.

Modules:

- `Wrappers` (wrappers.dfy): `Option`, standing in for `null`/`undefined`.
- `JsText` (text.dfy): JavaScript strings as sequences of UTF-16 code
  units, and `String.prototype.trim` over the ECMAScript whitespace and
  line-terminator set.
- `Products` (products.dfy): the record type, the two seed records,
  `find`, and the three list transforms: prepend on create, `map` on
  update, `filter` on delete.
- `Validation` (validation.dfy): the draft, one rule function per
  validated field, and `Validate`, which builds the error map.
- `ProductForm` (app.dfy): the component as class `App`. Its fields are
  the list, the draft, `errors`, `editingId` and the three toast fields.
  The handlers are methods. Each method's postcondition states the whole
  new state in terms of the old one.

Host calls become parameters:

- `Date.now()` is the `freshId` argument of `HandleSubmit`.
- The `window.confirm` answer is the `confirmed` argument of `HandleDelete`.
- `Number(price)`, the time `new Date(releaseDate)` stands for, and
  `new Date()` are the three fields of a `Host` value.
- The list read from storage is the constructor's `saved` argument.

Behaviour of the code worth knowing:

- `handleDelete` reads `target.name` before it asks for confirmation, so
  deleting an unknown id throws. `HandleDelete` therefore requires the id
  to be present.
- An update whose target id has vanished still reports "Produk berhasil
  diperbarui." and resets the form. `UpdateMissing` shows that the list is
  left unchanged in that case.
- A release date that does not parse (an Invalid Date) passes validation,
  because a comparison with NaN is false.

## Model

| member | source | states |
|---|---|---|
| `JsText.IsWhitespace` | src/App.jsx:48-52 | the code units `trim` strips: the WhiteSpace and LineTerminator sets of ECMA-262 (TAB, LF, VT, FF, CR, space, NBSP, U+1680, U+2000-U+200A, U+2028, U+2029, U+202F, U+205F, U+3000, U+FEFF) |
| `JsText.Trim` | src/App.jsx:48-52 | the trimmed string has no whitespace at either end, is no longer than the input, and is empty exactly when the input is all whitespace |
| `JsText.TrimExact` | src/App.jsx:48-52 | whitespace-only text around a core with non-whitespace ends is exactly what trim removes |
| `JsText.TrimTight` | src/App.jsx:99-100 | a string with no whitespace at either end is its own trim |
| `JsText.TrimIdempotent` | src/App.jsx:99-100 | trimming twice is trimming once |
| `Products.WithFields` | src/App.jsx:109-112 | a record built from an id and the submitted fields, as `{ id: Date.now(), ...productData }` on create and `{ ...p, ...productData }` on update; the description is always present |
| `Products.Seed` | src/App.jsx:17-20 | the fallback list holds two records with distinct ids, positive prices, stock within 0..1000, both active |
| `Products.Find` | src/App.jsx:131 | `find` returns nothing exactly when no record has the id; otherwise it returns a record with that id, and no earlier record has it |
| `Products.UpdateWhere` | src/App.jsx:112 | the update keeps the length; each record with the edited id takes the submitted fields under its own id; every other record is unchanged |
| `Products.UpdateKeepsIds` | src/App.jsx:112 | an update keeps every position's id, the set of present ids, and id uniqueness |
| `Products.UpdateMissing` | src/App.jsx:112 | updating an id that no record has leaves the list unchanged |
| `Products.FindAfterUpdate` | src/App.jsx:112 | after updating a present id, looking it up yields the new field values under that id |
| `Products.PrependKeepsUnique` | src/App.jsx:109 | prepending a record whose id is fresh keeps ids unique, and the new id is present |
| `Products.RemoveId` | src/App.jsx:133 | a record is kept exactly when it was in the list and its id differs from the deleted one; the list never grows |
| `Products.RemoveAppend` | src/App.jsx:133 | filtering distributes over concatenation, so the kept records stay in their relative order |
| `Products.RemoveSingle` | src/App.jsx:133 | on a single record the filter keeps it exactly when its id differs |
| `Products.RemoveMissing` | src/App.jsx:133 | deleting an id that no record has leaves the list unchanged |
| `Products.RemoveKeepsUnique` | src/App.jsx:133 | deletion keeps ids unique |
| `Products.RemoveKeepsOthers` | src/App.jsx:133-134 | deletion keeps every other id present, so an edit target other than the deleted one stays valid |
| `Products.RemovePresentUnique` | src/App.jsx:133 | with unique ids, deleting a present id shortens the list by exactly one |
| `Products.DeleteUndoesCreate` | src/App.jsx:109 | deleting the id of a record just prepended with a fresh id gives back the previous list |
| `Validation.PriceMissing` | src/App.jsx:57 | `!price`: true for an empty typed text or a stored 0 |
| `Validation.PriceNumber` | src/App.jsx:58 | `Number(price)`: a stored price is its own number; a typed one is what the host parses, None for NaN |
| `Validation.InFuture` | src/App.jsx:65 | `new Date(releaseDate) > new Date()`: the parsed time is after now; an Invalid Date compares false |
| `Validation.NameRule` | src/App.jsx:48-49 | the name error fires exactly for a blank name or a trimmed name over 100 code units; "Nama Produk wajib diisi." for blank, else "Nama maksimal 100 karakter." |
| `Validation.DescriptionRule` | src/App.jsx:52-54 | the description error fires exactly for a non-blank description whose trimmed length is under 20, with "Deskripsi minimal 20 karakter." |
| `Validation.PriceRule` | src/App.jsx:57-58 | no price error exactly when the price is present, numeric and positive; "Harga wajib diisi." when absent, else "Harga harus angka dan lebih dari 0." |
| `Validation.CategoryRule` | src/App.jsx:61 | the category error fires exactly for an empty category, with "Kategori wajib dipilih." |
| `Validation.ReleaseDateRule` | src/App.jsx:64-65 | the date error fires exactly for an empty date or one after now; "Tanggal rilis wajib diisi." for empty, else "Tanggal rilis tidak boleh di masa depan." |
| `Validation.Validate` | src/App.jsx:45-68 | each field is an error key exactly when its rule fails, with that rule's message; stock and isActive never are |
| `Validation.ValidateEmptyIff` | src/App.jsx:90-91 | the error map is empty exactly when every field rule, stated positively, passes |
| `Validation.NameOnlyAffectsName` | src/App.jsx:45-68 | changing only the name leaves every other error key and message as it was |
| `Validation.StockAndActiveIgnored` | src/App.jsx:45-68 | stock and the active switch never change the validation result |
| `Validation.ScenarioMissingName` | src/App.jsx:45-68 | the draft with an empty name, price "10", category "Makanan" and a past date yields only the name-required error |
| `Validation.DescriptionBoundary` | src/App.jsx:52-54 | a description of 19 non-blank-ended code units is refused, one of 20 is accepted |
| `ProductForm.EmptyDraft` | src/App.jsx:76-83 | the cleared draft has empty texts, a missing price, stock 50 and active true |
| `ProductForm.EmptyDraftErrors` | src/App.jsx:45-68 | validating the cleared form yields exactly the four required-field errors (name, price, category, release date) and none for the optional description |
| `ProductForm.Submitted` | src/App.jsx:98-106 | the submitted name and description have no surrounding whitespace and are empty only when blank; price is the parsed number; the other fields come unchanged from the draft |
| `ProductForm.DraftOf` | src/App.jsx:118-128 | the edit draft takes the record's price as a number and its description, or "" when it has none |
| `ProductForm.ConfirmPrompt` | src/App.jsx:131-132 | the confirmation prompt is the fixed head `Hapus Produk "`, then the target record's name, then the fixed tail `"?` |
| `ProductForm.SubmittedWellFormed` | src/App.jsx:90-110 | a draft that passes validation has a numeric price and yields a record obeying every field rule |
| `ProductForm.EditedDraftValid` | src/App.jsx:118-128 | a record obeying the field rules, loaded into the form, passes validation when its date is not in the future |
| `ProductForm.EditRoundTrip` | src/App.jsx:112 | loading a rule-obeying record into the form and saving it unchanged reproduces the record |
| `ProductForm.App.constructor` | src/App.jsx:12-38 | the list is the saved one or else the two seeds; the form is cleared; the toast is hidden, empty, variant success |
| `ProductForm.App.ShowToastMsg` | src/App.jsx:70-74 | sets message, variant and visibility; nothing else changes |
| `ProductForm.App.DismissToast` | src/App.jsx:254 | hides the toast; nothing else changes |
| `ProductForm.App.ResetForm` | src/App.jsx:76-86 | draft cleared, errors empty, no edit target; list and toast unchanged |
| `ProductForm.App.HandleSubmit` | src/App.jsx:88-116 | failure: errors become the validator's map, list, draft and target unchanged, danger toast "Periksa kembali input Anda."; success: fresh record prepended (create) or target updated in place (edit), form reset, success toast; keeps ids unique and the edit target valid |
| `ProductForm.App.HandleEdit` | src/App.jsx:118-128 | the target becomes the record's id, the draft its fields, errors empty; list and toast unchanged |
| `ProductForm.App.HandleDelete` | src/App.jsx:130-137 | the prompt names the first record with the id; declined: nothing changes; confirmed: exactly the records with that id are removed, the form is reset if it was editing that id, success toast "Produk berhasil dihapus." |

## Left out

- Rendering (JSX, react-bootstrap widgets, the table, `Intl.NumberFormat`, the description counter, the button labels): view code over libraries outside this model.
- localStorage and `JSON.stringify`/`JSON.parse`: browser storage and a foreign serializer. The constructor takes the already parsed saved list, or None when nothing was saved. So the serialize/deserialize round trip is not modelled.
- The toast's 3-second auto-hide timer: it is asynchronous. `DismissToast` models its effect, and that of the close button.
- `Number(price)`, `isNaN`, date parsing and time zones: floating point and host parsing. They are inputs in `Host`. The draft price is either typed text or a stored number. Prices are reals, and a NaN stored price cannot occur.
- The per-keystroke `onChange` setters and `e.preventDefault()`: plain field assignments and a DOM call.
- `Number(stock)`: stock is an integer from the start, because the range input only yields integers.
- React's batching of state updates: each handler is one sequential update that yields the final state.
- `JsText.Units`: only literals made entirely of Basic Multilingual Plane characters are converted to code units. Every literal in the component is such a literal.
- `ProductForm.App.HandleDelete`: requires the id to be present, because the source throws on a missing one (`target` is undefined). The thrown error is not modelled.
- Uniqueness of ids is not something the source enforces (`Date.now()` can repeat, and the saved list is arbitrary). So `HandleSubmit` keeps ids unique only when `freshId` is not already in use.
- `ProductForm.App.ShowToastMsg`: the variant is a required parameter instead of defaulting to `'success'`, because every call passes one explicitly.
