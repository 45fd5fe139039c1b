# Espositori Mosaic — a verified model of the admin logic

Espositori Mosaic is a small React directory of wedding-fair exhibitors ("espositori"). Its exhibitor, fair and category lists have no backend: each lives in component state, and every edit is an in-memory operation on it. The only external service is Supabase authentication, which gates the management page. This project models that logic in Dafny and proves what each operation does:

- the exhibitor record and its optional fields;
- the creation form (`AdminPanel`) and the edit dialog (`GestioneEspositori`): trimming, required fields, the description length, the e-mail pattern, empty-to-absent normalisation, and the image-URL list;
- the fair and category editors (`GestioneFiere`, `GestioneCategorie`): add with a fresh identifier, replace by identifier, delete by identifier, and the callback that receives every stored list;
- the management page (`GestioneEspositoriPage`): the update and delete callbacks, and the session gate (loading, redirect or manager);
- the admin page's append (`Admin`);
- the multi-select widget: unselect, pop-last on Backspace/Delete, select-append, the remaining selectable options, and badge labels;
- the catalog-to-option projections of the fair and category seed lists;
- the PDF generator's draw commands and vertical cursor;
- the detail page and dialog: lookup by identifier, the meta-description prefix, the download file name, and the `isGeneratingPDF` flag across `try`/`finally`.

Components that change state in place are classes whose fields are the React state. A handler is a method with a `modifies` clause. Each callback the component calls (`onUpdateFiere`, `onAddEspositore`, ...) is a log field that the method appends to. The list-building expressions (`filter`, `map`, spread-append) are functions. Lemmas relate them: a delete undoes an add, a delete after an edit equals a delete before it, and edits are idempotent.

String semantics follow JavaScript:
- `trim` and the regular-expression class `\s` use the ECMAScript white-space set;
- `toLowerCase` is modelled on ASCII letters;
- an optional text field is truthy only when present and non-empty;
- `x || []` keeps a present empty array.

Fresh identifiers from `uuidv4()` are parameters. Their uniqueness is never assumed. Only the lemmas that need it require the new identifier to be absent.

The model keeps three behaviours of the code that a reader might not expect:
- The edit payload has no `category` field, so saving an edited record drops an older record's `category` (`EditRoundTripPayload`).
- The management page turns absent `fiere`/`categories` lists into `[]`. The edit dialog stores an empty list as absent.
- The creation form has neither an e-mail nor a description-length check.

Apart from the approximations listed under "## Left out" (ASCII-only lower-casing, lengths counted in code points rather than UTF-16 units, and the asynchronous export run in one step), the model departs from the code in one place: the defect corrected under "## Findings".

## Model

| member | source | states |
|---|---|---|
| Types.WithId | src/pages/Admin.tsx:14-17 | `{ ...data, id }` carries the given identifier and exactly the submitted fields |
| Lists.Filter | src/components/GestioneEspositori.tsx:70-72 | `filter` keeps exactly the elements satisfying the predicate, takes nothing from elsewhere, and keeps everything when all satisfy it |
| Lists.FilterConcat | src/components/GestioneEspositori.tsx:70-72 | filtering distributes over concatenation, so the survivors keep their relative order |
| Lists.FilterIdempotent | src/components/GestioneEspositori.tsx:70-72 | filtering twice with the same predicate is filtering once |
| Lists.RemoveKey | src/components/GestioneFiere.tsx:57 | delete-by-id keeps exactly the elements with another identifier; an unknown identifier changes nothing |
| Lists.RemoveKeyConcat | src/components/GestioneFiere.tsx:57 | delete-by-id works piecewise, so the order of the rest is kept |
| Lists.RemoveKeyAfterAppend | src/components/GestioneFiere.tsx:43 | deleting the identifier of an appended element removes it together with any earlier holder of that identifier |
| Lists.ReplaceKey | src/components/GestioneFiere.tsx:83-87 | `map` by identifier: same length; position i is rewritten exactly when its identifier matches |
| Lists.ReplaceKeyKeepsKeys | src/components/GestioneFiere.tsx:83-87 | a rewrite that keeps identifiers leaves the identifier list unchanged |
| Lists.ReplaceAbsentKey | src/pages/GestioneEspositoriPage.tsx:53-55 | replacing an identifier nobody carries changes nothing |
| Lists.RemoveKeyAfterReplace | src/pages/GestioneEspositoriPage.tsx:53-55 | deleting after an identifier-keeping replacement equals deleting before it |
| Lists.ReplaceKeyIdempotent | src/pages/GestioneEspositoriPage.tsx:53-55 | replacing twice with the same identifier-keeping rewrite equals replacing once |
| Lists.DropIndex | src/components/GestioneEspositori.tsx:107-109 | `filter((_, i) => i !== index)`: the list without that position; an out-of-range index changes nothing |
| Lists.FindIndex | src/pages/EspositoreDetail.tsx:22 | the first position satisfying the predicate, or the length when there is none |
| Lists.Find | src/pages/EspositoreDetail.tsx:22 | `find`: absent iff no element matches, otherwise the first match |
| Text.IsWhitespace | src/components/GestioneEspositori.tsx:115 | the white-space set of `trim` and `\s`: TAB to CR, space, NBSP, the Unicode space separators, LS, PS and the byte order mark |
| Text.TrimStart | src/components/GestioneEspositori.tsx:115 | the suffix left after dropping the leading white space; what was dropped is all white space |
| Text.TrimEnd | src/components/GestioneEspositori.tsx:115 | the prefix left after dropping the trailing white space; what was dropped is all white space |
| Text.Trim | src/components/GestioneEspositori.tsx:115 | `trim` yields a trimmed text no longer than the input, empty iff the input is all white space |
| Text.TrimOfTrimmed | src/components/GestioneEspositori.tsx:142-145 | trimming a trimmed text changes nothing |
| Text.TrimIdempotent | src/components/GestioneEspositori.tsx:142-145 | trimming twice is trimming once |
| Text.TrimStartPadding | src/components/GestioneEspositori.tsx:101 | leading white space before a non-white-space character is exactly what `trimStart` drops |
| Text.TrimEndPadding | src/components/GestioneEspositori.tsx:101 | trailing white space after a non-white-space character is exactly what `trimEnd` drops |
| Text.TrimLeadingPadding | src/components/GestioneEspositori.tsx:101 | trimming a text with white-space padding in front equals trimming only the end of the rest |
| Text.TrimPadding | src/components/GestioneEspositori.tsx:101 | `trim` removes white-space padding on both sides of a trimmed core and nothing else |
| Text.LowerChar | src/components/GestioneEspositori.tsx:71 | lower-casing a character leaves no ASCII capital and keeps white space white space |
| Text.Lower | src/components/GestioneEspositori.tsx:71 | `toLowerCase` works position by position and keeps the length |
| Text.LowerIdempotent | src/components/GestioneEspositori.tsx:71 | lower-casing twice is lower-casing once |
| Text.LowerConcat | src/pages/EspositoreDetail.tsx:50 | lower-casing distributes over concatenation |
| Text.Includes | src/components/GestioneEspositori.tsx:71 | `includes` holds iff the query occurs at some position |
| Text.ReplaceWhitespaceRuns | src/pages/EspositoreDetail.tsx:50 | `replace(/\s+/g, sep)` leaves no white space (for a non-white-space separator), never lengthens, and keeps a text without white space |
| Text.RunBecomesOne | src/pages/EspositoreDetail.tsx:50 | a maximal white-space run becomes exactly one separator |
| Text.ReplaceRunsConcat | src/pages/EspositoreDetail.tsx:50 | the replacement works piecewise where the right part does not start with white space |
| Text.ReplaceRunsStep | src/pages/EspositoreDetail.tsx:50 | a character that is not white space is copied through |
| Text.ReplaceRunsCleanPrefix | src/pages/EspositoreDetail.tsx:50 | a prefix without white space goes through the replacement unchanged |
| Text.TrimStartConcat | src/pages/EspositoreDetail.tsx:50 | dropping leading white space from a concatenation only touches its first part, when that part is not all white space |
| Forms.OptionalText | src/components/GestioneEspositori.tsx:146-149 | `s.trim() \|\| undefined`: absent iff the text is all white space, otherwise exactly `Trim(s)`, which is non-empty and trimmed |
| Forms.OptionalTextOfValue | src/components/GestioneEspositori.tsx:146-149 | a value already normalised survives normalisation again |
| Forms.OptionalList | src/components/GestioneEspositori.tsx:150-152 | `xs.length > 0 ? [...xs] : undefined` is absent iff the list is empty, otherwise the same list |
| Forms.AppendImage | src/components/GestioneEspositori.tsx:100-105 | a blank URL leaves the list; otherwise the list becomes `images + [Trim(url)]`: the trimmed, non-empty URL appended and earlier entries untouched |
| Forms.RemoveImage | src/components/GestioneEspositori.tsx:107-109 | removing index i deletes exactly that position and shifts the later ones; an out-of-range index changes nothing |
| Forms.RemoveUndoesAppend | src/components/AdminPanel.tsx:28-37 | removing the image just appended, at its index, restores the list |
| FiereData.Seed | src/data/fiere.ts:5-16 | the seed has ten fairs carrying the ten generated identifiers in order, from Belluno to Mantova |
| FiereData.Opzioni | src/data/fiere.ts:18-23 | one option per fair, in order, with the fair's identifier as value and the name, a bar and the date as label |
| FiereData.OpzioniValues | src/data/fiere.ts:19-20 | the option values are the fair identifiers in catalog order |
| FiereData.OpzioniAppend | src/data/fiere.ts:18-23 | a fair added to the catalog adds its option at the end and changes no other option |
| CategorieData.Seed | src/data/categorie.ts:5-21 | the seed has fifteen categories carrying the generated identifiers in order |
| CategorieData.Opzioni | src/data/categorie.ts:23-28 | one option per category, in order, labelled with its name |
| CategorieData.OpzioniValues | src/data/categorie.ts:24-25 | the option values are the category identifiers in catalog order |
| EspositoriData.SeedShape | src/data/espositori.ts:5-47 | the three sample exhibitors carry the identifiers "1" to "3", each with a single category and no e-mail, fair list or category list |
| GestioneEspositori.Search | src/components/GestioneEspositori.tsx:70-72 | the search keeps exactly the exhibitors whose lower-cased name contains the lower-cased query |
| GestioneEspositori.SearchEmptyQuery | src/components/GestioneEspositori.tsx:70-72 | an empty query keeps every exhibitor, in order |
| GestioneEspositori.SearchConcat | src/components/GestioneEspositori.tsx:70-72 | the search works piecewise, so the kept exhibitors stay in list order |
| GestioneEspositori.IndexOf | src/components/GestioneEspositori.tsx:96 | the first position of a character, or the length when absent |
| GestioneEspositori.IsValidEmail | src/components/GestioneEspositori.tsx:94-98 | the empty string is accepted; an accepted non-empty address has no white space and an '@' after a non-empty local part |
| GestioneEspositori.ValidEmailMatches | src/components/GestioneEspositori.tsx:96-97 | every accepted non-empty address matches `^[^\s@]+@[^\s@]+\.[^\s@]+$` |
| GestioneEspositori.MatchingEmailValid | src/components/GestioneEspositori.tsx:96-97 | every string matching the pattern is accepted |
| GestioneEspositori.IsValidEmailMatchesPattern | src/components/GestioneEspositori.tsx:94-98 | `isValidEmail` holds iff the text is empty or matches the regular expression |
| GestioneEspositori.EmailExamples | src/components/GestioneEspositori.tsx:94-98 | "" and "a@b.c" are accepted; "a@b" and "a.com" are not |
| GestioneEspositori.FormOf | src/components/GestioneEspositori.tsx:74-87 | opening the editor copies the required texts, copies every present optional text and list, turns absent optional texts into "" and absent lists into [] |
| GestioneEspositori.CheckEdit | src/components/GestioneEspositori.tsx:115-140 | the checks as written, in order: missing required field iff one is blank after trimming; too-short description iff the untrimmed length is below 100; invalid e-mail iff a non-empty e-mail fails `isValidEmail` |
| GestioneEspositori.Payload | src/components/GestioneEspositori.tsx:142-153 | each required text is stored as its trim, each optional text as `OptionalText` of its input (its trim, or absent when blank), each list as itself or absent when empty; no category is sent |
| GestioneEspositori.OptionalTextRoundTrip | src/components/GestioneEspositori.tsx:146-149 | normalising the editor's copy of a normalised optional text gives it back |
| GestioneEspositori.EditRoundTripChecks | src/components/GestioneEspositori.tsx:74-140 | a normalised record opened in the editor passes the checks unchanged |
| GestioneEspositori.EditRoundTripPayload | src/components/GestioneEspositori.tsx:74-153 | saving a normalised record unedited stores the same fields, except that `category` is dropped |
| GestioneEspositori.SubmittedNormalized | src/components/GestioneEspositori.tsx:115-153 | a form that passes the checks and whose trimmed description has 100 characters yields a normalised record |
| GestioneEspositori.PaddedDescriptionAccepted | src/components/GestioneEspositori.tsx:124-144 | a 99-character description padded with one space passes the checks as written, is stored with 99 characters, and is then refused when re-edited |
| GestioneEspositori.CheckEditTrimmed | src/components/GestioneEspositori.tsx:115-140 | the corrected checks: too-short description iff the trimmed length is below 100; every other outcome equals the checks as written |
| GestioneEspositori.AcceptedIsNormalized | src/components/GestioneEspositori.tsx:115-153 | every form the corrected checks accept is stored as a normalised record with a description of at least 100 characters |
| GestioneEspositori.NormalizedPassesTrimmedCheck | src/components/GestioneEspositori.tsx:74-140 | a normalised record re-opened unchanged passes the corrected checks |
| GestioneEspositori.PaddedDescriptionRejected | src/components/GestioneEspositori.tsx:124-144 | the corrected checks refuse the padded 99-character description |
| GestioneEspositori.Gestione.Visible | src/components/GestioneEspositori.tsx:70-72 | the shown list keeps exactly the exhibitors whose lower-cased name includes the lower-cased search text, and all of them while the search is empty |
| GestioneEspositori.Gestione.SetSearch | src/components/GestioneEspositori.tsx:186 | the search input's `onChange` sets the search text and nothing else |
| GestioneEspositori.Gestione.SetForm | src/components/GestioneEspositori.tsx:266-339 | the dialog inputs' `onChange` handlers set the form and nothing else |
| GestioneEspositori.Gestione.SetNewImageUrl | src/components/GestioneEspositori.tsx:65 | the image-URL input sets only the pending URL |
| GestioneEspositori.Gestione.HandleEdit | src/components/GestioneEspositori.tsx:74-87 | remembers the record, loads `FormOf` it into the form and opens the dialog |
| GestioneEspositori.Gestione.HandleDelete | src/components/GestioneEspositori.tsx:89-92 | remembers the record and opens the confirmation |
| GestioneEspositori.Gestione.HandleAddImage | src/components/GestioneEspositori.tsx:100-105 | a blank pending URL changes nothing; otherwise the trimmed URL is appended and the pending URL cleared |
| GestioneEspositori.Gestione.HandleRemoveImage | src/components/GestioneEspositori.tsx:107-109 | only the form's image list changes, by `RemoveImage` |
| GestioneEspositori.Gestione.HandleSubmitEdit | src/components/GestioneEspositori.tsx:111-162 | no current record: nothing; a failed check (length test corrected, see Findings): nothing changes and the first error is reported; otherwise one callback with the record's identifier and a normalised payload, and the dialog closes |
| GestioneEspositori.Gestione.HandleConfirmDelete | src/components/GestioneEspositori.tsx:164-174 | with a current record, one delete callback with its identifier and the confirmation closes; without one, nothing; confirming from the open dialog always deletes exactly once |
| GestioneEspositori.Gestione.CloseEditDialog | src/components/GestioneEspositori.tsx:384-389 | the edit dialog's cancel button closes it and publishes nothing |
| GestioneEspositori.Gestione.CloseDeleteDialog | src/components/GestioneEspositori.tsx:396-410 | the confirmation's cancel button or dismissal closes it and deletes nothing |
| AdminPanel.NewEspositore | src/components/AdminPanel.tsx:53-62 | name, description and logo URL stored as their trims; website, phone, fair location and category as their trims or absent; images absent iff empty; no e-mail or lists |
| AdminPanel.CreatedPassesRequiredCheck | src/components/AdminPanel.tsx:43-62 | a record the creation form accepts also passes the edit dialog's required-field check |
| AdminPanel.Panel.SetFields | src/components/AdminPanel.tsx:98-183 | sets the eight text inputs to the given values; the image list and the callback log are unchanged |
| AdminPanel.Panel.HandleAddImage | src/components/AdminPanel.tsx:28-33 | a blank URL changes nothing; otherwise the trimmed URL is appended and the input cleared |
| AdminPanel.Panel.HandleRemoveImage | src/components/AdminPanel.tsx:35-37 | the image list loses exactly the given index |
| AdminPanel.Panel.ResetForm | src/components/AdminPanel.tsx:68-76 | every text input becomes "" and the image list [] |
| AdminPanel.Panel.HandleSubmit | src/components/AdminPanel.tsx:39-83 | submits iff the three required fields are non-blank; a refusal changes nothing; a success calls the callback once with `NewEspositore` of the inputs and clears the form |
| GestioneFiere.AddFiera | src/components/GestioneFiere.tsx:27-43 | absent iff a trimmed input is empty; otherwise the old list plus one fair at the end with the fresh identifier and the trimmed, non-empty name and date |
| GestioneFiere.SaveFiera | src/components/GestioneFiere.tsx:73-87 | absent iff a trimmed input is empty; otherwise matching fairs get the trimmed name and date, and identifiers, positions and every other fair are kept |
| GestioneFiere.DeleteUndoesAdd | src/components/GestioneFiere.tsx:27-57 | deleting a freshly added fair by its identifier restores the list |
| GestioneFiere.DeleteAfterSave | src/components/GestioneFiere.tsx:56-87 | deleting after an edit equals deleting before it |
| GestioneFiere.SaveIdempotent | src/components/GestioneFiere.tsx:73-87 | saving the same edit twice equals saving it once |
| GestioneFiere.Gestione.HandleAddFiera | src/components/GestioneFiere.tsx:27-54 | a blank input changes nothing; otherwise the fair is appended, the callback receives the new list and both inputs are cleared |
| GestioneFiere.Gestione.HandleDeleteFiera | src/components/GestioneFiere.tsx:56-65 | the fairs with the identifier are removed and the callback receives the new list |
| GestioneFiere.Gestione.HandleStartEdit | src/components/GestioneFiere.tsx:67-71 | edit mode holds the fair's identifier and the edit inputs its name and date |
| GestioneFiere.Gestione.SetNuovaFiera | src/components/GestioneFiere.tsx:115-126 | the two new-fair inputs set only the pending name and date |
| GestioneFiere.Gestione.SetModifica | src/components/GestioneFiere.tsx:158-163 | the inline edit inputs set only the edited name and date |
| GestioneFiere.Gestione.HandleSaveEdit | src/components/GestioneFiere.tsx:73-97 | a blank edit input changes nothing; otherwise the list becomes `SaveFiera`, the callback receives it and edit mode ends |
| GestioneCategorie.AddCategoria | src/components/GestioneCategorie.tsx:25-40 | absent iff the trimmed name is empty; otherwise the old list plus one category at the end with the fresh identifier and the trimmed name |
| GestioneCategorie.SaveCategoria | src/components/GestioneCategorie.tsx:68-82 | absent iff the trimmed name is empty; otherwise only matching categories get the trimmed name, keeping identifiers and positions |
| GestioneCategorie.DeleteUndoesAdd | src/components/GestioneCategorie.tsx:25-53 | deleting a freshly added category by its identifier restores the list |
| GestioneCategorie.DeleteAfterSave | src/components/GestioneCategorie.tsx:52-82 | deleting after a rename equals deleting before it |
| GestioneCategorie.SaveIdempotent | src/components/GestioneCategorie.tsx:68-82 | saving the same rename twice equals saving it once |
| GestioneCategorie.Gestione.HandleAddCategoria | src/components/GestioneCategorie.tsx:25-50 | a blank name changes nothing; otherwise the category is appended, the callback receives the new list and the input is cleared |
| GestioneCategorie.Gestione.HandleDeleteCategoria | src/components/GestioneCategorie.tsx:52-61 | the categories with the identifier are removed and the callback receives the new list |
| GestioneCategorie.Gestione.HandleStartEdit | src/components/GestioneCategorie.tsx:63-66 | edit mode holds the category's identifier and the edit input its name |
| GestioneCategorie.Gestione.SetNomeCategoria | src/components/GestioneCategorie.tsx:110 | the new-category input sets only the pending name |
| GestioneCategorie.Gestione.SetEditNome | src/components/GestioneCategorie.tsx:142 | the inline edit input sets only the edited name |
| GestioneCategorie.Gestione.HandleSaveEdit | src/components/GestioneCategorie.tsx:68-92 | a blank name changes nothing; otherwise the list becomes `SaveCategoria`, the callback receives it and edit mode ends |
| GestioneEspositoriPage.Sanitize | src/pages/GestioneEspositoriPage.tsx:47-51 | both lists end up present: a present list (even empty) is kept, an absent one becomes []; no other field changes |
| GestioneEspositoriPage.UpdateEspositore | src/pages/GestioneEspositoriPage.tsx:53-55 | same length and identifiers; every matching record becomes the sanitised payload with that identifier and the others are untouched |
| GestioneEspositoriPage.DeleteEspositore | src/pages/GestioneEspositoriPage.tsx:66-67 | exactly the records with another identifier remain; an unknown identifier changes nothing |
| GestioneEspositoriPage.UpdatedRecordsHaveLists | src/pages/GestioneEspositoriPage.tsx:47-55 | after an update every matching record has both lists present |
| GestioneEspositoriPage.UpdateUnknownId | src/pages/GestioneEspositoriPage.tsx:53-55 | updating an identifier nobody carries changes nothing |
| GestioneEspositoriPage.UpdateIdempotent | src/pages/GestioneEspositoriPage.tsx:45-55 | the same update twice equals it once |
| GestioneEspositoriPage.DeleteAfterUpdate | src/pages/GestioneEspositoriPage.tsx:45-67 | deleting after an update equals deleting before it |
| GestioneEspositoriPage.ScreenOf | src/pages/GestioneEspositoriPage.tsx:82-97 | the placeholder iff loading; the redirect to /admin iff settled and unauthenticated; the manager iff settled and authenticated |
| GestioneEspositoriPage.Page.constructor | src/pages/GestioneEspositoriPage.tsx:15-17 | the page starts with the seed list, loading and unauthenticated, showing the placeholder |
| GestioneEspositoriPage.Page.Mount | src/pages/GestioneEspositoriPage.tsx:36-38 | the auth listener is registered |
| GestioneEspositoriPage.Page.CheckSessionSettled | src/pages/GestioneEspositoriPage.tsx:21-31 | a resolved check sets authentication iff there is a session; a throwing one leaves it; loading ends either way |
| GestioneEspositoriPage.Page.AuthStateChange | src/pages/GestioneEspositoriPage.tsx:36-38 | while listening, authentication follows the event's session |
| GestioneEspositoriPage.Page.Unmount | src/pages/GestioneEspositoriPage.tsx:40-42 | the listener is released |
| GestioneEspositoriPage.Page.HandleUpdateEspositore | src/pages/GestioneEspositoriPage.tsx:45-64 | the list becomes `UpdateEspositore` of the old list |
| GestioneEspositoriPage.Page.HandleDeleteEspositore | src/pages/GestioneEspositoriPage.tsx:66-76 | the list becomes `DeleteEspositore` of the old list |
| AdminPage.AddEspositore | src/pages/Admin.tsx:13-19 | the old list is kept as a prefix and exactly one record with the fresh identifier and the submitted fields is appended |
| AdminPage.DeleteUndoesAdd | src/pages/Admin.tsx:13-19 | deleting by the fresh identifier removes exactly the record just added |
| AdminPage.Admin.constructor | src/pages/Admin.tsx:11 | the list starts as the seed exhibitors |
| AdminPage.Admin.HandleAddEspositore | src/pages/Admin.tsx:13-20 | the list becomes `AddEspositore` of the old list |
| MultiSelect.SafeList | src/components/ui/multi-select.tsx:33-36 | a prop that is not an array is the empty list |
| MultiSelect.Unselect | src/components/ui/multi-select.tsx:38-40 | the item no longer occurs, every other value is kept, nothing is added, and an unselected item changes nothing |
| MultiSelect.UnselectConcat | src/components/ui/multi-select.tsx:38-40 | unselecting works piecewise, so the remaining order is kept |
| MultiSelect.UnselectUndoesSelect | src/components/ui/multi-select.tsx:38-40 | unselecting a value just selected restores the selection |
| MultiSelect.KeyDownChange | src/components/ui/multi-select.tsx:46-50 | a change iff Backspace/Delete with empty input and a non-empty selection; it is the selection without its last value |
| MultiSelect.Selectables | src/components/ui/multi-select.tsx:60 | exactly the options whose value is not selected; all options when nothing is selected |
| MultiSelect.SelectablesAfterSelect | src/components/ui/multi-select.tsx:60 | selecting a value removes exactly the options with that value and keeps the order of the rest |
| MultiSelect.BadgeLabel | src/components/ui/multi-select.tsx:72-75 | the first matching option's label, or the raw value when none matches or the label is empty |
| MultiSelect.Placeholder | src/components/ui/multi-select.tsx:93 | the placeholder is shown iff the selection is empty; it is the given text, or "Seleziona..." when the prop is omitted |
| MultiSelect.Widget.SetInputValue | src/components/ui/multi-select.tsx:90 | the input's `onValueChange` sets only the typed text |
| MultiSelect.Widget.DropdownVisible | src/components/ui/multi-select.tsx:99 | the option list is drawn iff the widget is open and some option's value is not selected |
| MultiSelect.Widget.SetOpen | src/components/ui/multi-select.tsx:91-92 | focus opens and blur closes the list |
| MultiSelect.Widget.HandleUnselect | src/components/ui/multi-select.tsx:38-40 | `onChange` receives `Unselect` of the safe selection |
| MultiSelect.Widget.HandleKeyDown | src/components/ui/multi-select.tsx:42-57 | `onChange` runs exactly when `KeyDownChange` gives a selection; Escape closes the list |
| MultiSelect.Widget.HandleSelect | src/components/ui/multi-select.tsx:109-112 | the input text is cleared and `onChange` receives the selection with the new value appended, which was not selected before |
| PdfGenerator.ContactLines | src/utils/pdfGenerator.ts:44-57 | one line per present contact field, in the order website, phone, fair location, each with its label |
| PdfGenerator.GalleryY | src/utils/pdfGenerator.ts:59-66 | "Gallery" lands below every contact line, and strictly below them when a category is drawn |
| PdfGenerator.Heading | src/utils/pdfGenerator.ts:13-41 | six heading commands whose heights never go up and end at the contact heading |
| PdfGenerator.Body | src/utils/pdfGenerator.ts:13-66 | the reference order of every command down to "Gallery", which `BodyNonDecreasing` proves never goes up the page |
| PdfGenerator.Layout | src/utils/pdfGenerator.ts:13-76 | the closed-form page that `GeneratePdf` is proved to draw: the body, then the footer at 280 (`LayoutShape`) |
| PdfGenerator.Stacked | src/utils/pdfGenerator.ts:44-57 | the k-th stacked line is drawn at x=20, one line height (7) per earlier line below the top |
| PdfGenerator.Document.DrawText | src/utils/pdfGenerator.ts:16 | `doc.text` appends one text command |
| PdfGenerator.Document.DrawLines | src/utils/pdfGenerator.ts:34 | `doc.text(lines, ...)` appends one multi-line command |
| PdfGenerator.Document.DrawRule | src/utils/pdfGenerator.ts:25 | `doc.line` appends one rule command |
| PdfGenerator.GeneratePdf | src/utils/pdfGenerator.ts:6-80 | the cursor-driven drawing produces exactly `Layout`, a fresh document |
| PdfGenerator.DrawHeading | src/utils/pdfGenerator.ts:16-41 | title at 20, name at 30, rule at 35, "Description:" at 45, lines at 55, contact heading at 55 + 7 per line, and the cursor 10 below it |
| PdfGenerator.DrawContacts | src/utils/pdfGenerator.ts:44-57 | website, phone and fair location are drawn only when present, in that order, each 7 below the previous, and the cursor ends below them |
| PdfGenerator.StackedSnoc | src/utils/pdfGenerator.ts:44-57 | one more contact line lands one line height below the stack |
| PdfGenerator.NonDecreasingConcat | src/utils/pdfGenerator.ts:36-67 | two ordered command lists separated by a height stay ordered when joined |
| PdfGenerator.BodyNonDecreasing | src/utils/pdfGenerator.ts:36-67 | the cursor never moves up: commands down to "Gallery" are in non-decreasing height, none below "Gallery" |
| PdfGenerator.LayoutShape | src/utils/pdfGenerator.ts:59-76 | the page has 8 commands plus one per present contact line and category; "Gallery" is second to last, the footer last at the fixed height 280 |
| PdfGenerator.BareRecordLayout | src/utils/pdfGenerator.ts:44-67 | without optional fields "Gallery" is 10 below the contact heading and the body has seven commands |
| PdfDownload.DownloadFilename | src/pages/EspositoreDetail.tsx:50 | the file name has no white space and no capital, ends in "-details.pdf", and is no longer than the name plus the suffix |
| PdfDownload.FilenameOfPlainName | src/pages/EspositoreDetail.tsx:50 | a lower-case name without white space only gains the suffix |
| PdfDownload.ReplaceJoinsWords | src/pages/EspositoreDetail.tsx:50 | two words separated by any white-space run become the words joined by one '-' |
| PdfDownload.LowerJoin | src/pages/EspositoreDetail.tsx:50 | lower-casing keeps the '-' between two words in place |
| PdfDownload.FilenameJoinsWords | src/pages/EspositoreDetail.tsx:50 | two words separated by any white-space run are lower-cased and joined by exactly one '-' |
| PdfDownload.ExportPdf | src/pages/EspositoreDetail.tsx:45-53 | a throwing generator yields no download; otherwise the download carries the derived name and the drawn layout |
| EspositoreDetail.FindById | src/pages/EspositoreDetail.tsx:22 | absent iff no exhibitor has the identifier, otherwise the first one that does |
| EspositoreDetail.FoundRecordMatches | src/pages/EspositoreDetail.tsx:22-25 | a found record carries the route identifier and comes from the list |
| EspositoreDetail.MetaDescription | src/pages/EspositoreDetail.tsx:33 | the first min(160, length) characters of the description |
| EspositoreDetail.ShortDescriptionKept | src/pages/EspositoreDetail.tsx:33 | a description of at most 160 characters is used whole |
| EspositoreDetail.DetailPage.constructor | src/pages/EspositoreDetail.tsx:18-19 | no exhibitor, no export running, and the page searches the seed list |
| EspositoreDetail.DetailPage.LoadExhibitor | src/pages/EspositoreDetail.tsx:21-38 | a found record is stored and its description prefix set as meta content when the tag exists; otherwise one navigation to "/" and nothing else changes |
| EspositoreDetail.DetailPage.RunExport | src/pages/EspositoreDetail.tsx:43-59 | runs only while the flag is up; the download as in `ExportPdf` |
| EspositoreDetail.DetailPage.HandleDownloadPDF | src/pages/EspositoreDetail.tsx:40-71 | no record: nothing; otherwise a download and a success notice, or only an error notice when generation throws; the flag is down afterwards |
| EspositoreModal.Modal.RunExport | src/components/EspositoreModal.tsx:24-40 | runs only while the flag is up; the download as in `ExportPdf` |
| EspositoreModal.Modal.HandleDownloadPDF | src/components/EspositoreModal.tsx:21-52 | a null exhibitor: nothing; a failure: no download and an error notice; success: the download and a success notice; the flag is down afterwards |

## Findings

| source | as written | input that shows it | evidently intended | confidence | as-written member | corrected member |
|---|---|---|---|---|---|---|
| src/components/GestioneEspositori.tsx:124 | the 100-character minimum is tested on the untrimmed description, but the trimmed description is stored (line 144) | 99 non-blank characters followed by one space: accepted, stored with 99 characters, and refused when the same record is opened and saved again | the minimum applies to the description as stored, i.e. after trimming, so that every stored record passes its own editor | medium, not executed | GestioneEspositori.PaddedDescriptionAccepted | GestioneEspositori.AcceptedIsNormalized |

`GestioneEspositori.CheckEdit` models the checks as written. `GestioneEspositori.CheckEditTrimmed` is the corrected check, and `GestioneEspositori.Gestione.HandleSubmitEdit` uses it. `AcceptedIsNormalized` and `NormalizedPassesTrimmedCheck` prove that whatever the corrected check accepts is stored with at least 100 characters, and that such a record passes the check again when it is re-edited.

## Left out

- JSX rendering, styling, dialog visuals, toasts, icons, `console.log`, and the presentation-only components (Header, Footer, Index, EspositoriGrid, EspositoreCard, App routing): they hold no logic. The toast after each handler is left out; its outcome is the handler's result or log.
- src/components/Auth.tsx and the Supabase client are not part of this model. `getSession` and `onAuthStateChange` are abstract events (`SessionCheck`, `AuthStateChange(hasSession)`). `handleLogout` is a bare `signOut` call, which is foreign.
- The management page's `navigate('/admin')` is the `RedirectToAdmin` screen, not a recorded navigation.
- jsPDF internals are inputs or left out. `splitTextToSize` is given as the list of wrapped lines, and `toLocaleDateString` as the date text. Fonts, sizes, colours and the data-URL output are left out.
- DOM side effects: the download link is the `Download` value. The detail page's `document.title` is not modelled. A missing meta tag is the `hasMetaTag` flag.
- `uuidv4()` is a parameter (`freshId`, the seed identifier lists). The ten and fifteen seed identifiers are inputs to `FiereData.Seed` and `CategorieData.Seed`.
- src/pages/GestioneFierePage.tsx and src/pages/GestioneCategoriePage.tsx: pure state pass-throughs to the editors modelled here.
- `handleDownloadPDF` is asynchronous. The model runs it to completion in one step, so the flag is observable as up only inside `RunExport`.
- The multi-select's `onKeyDown` runs only while the input element is mounted. The model assumes it is always mounted.
- Text.Lower: models `toLowerCase` on ASCII letters only, because full Unicode case mapping (which can change lengths) is out of scope.
- Text.IsWhitespace: is the ECMAScript white-space set by code point; strings are sequences of code points, so UTF-16 surrogate pairs are not modelled.
- EspositoreDetail.MetaDescription: counts characters as code points, not UTF-16 code units as `substring` does.
- GestioneEspositori.Gestione.HandleSubmitEdit: uses the corrected length test of `CheckEditTrimmed` instead of the untrimmed one (see Findings); the checks as written are `CheckEdit`.
- No public fair or category filter, no PDF image embedding, and no referential integrity between exhibitor `fiere`/`categories` and the catalogs: the code has none of these.
