# Template placeholders of the legal-document frontend

This project models the placeholder engine of the React frontend of a legal
document generator. A template (`PlantillaDocumento`) is HTML text in which
dynamic parts are written as `{{nombre_variable}}` tokens. Each token is bound
to a reusable field (`CampoDisponible`) by a binding (`CampoPlantilla`).

The model covers:

- **Preview** (`preview.dfy`): `getPreviewHtml`. It folds over the bindings and
  replaces every `{{name}}` with the trimmed value typed for that name. When
  that value is blank, it uses a fallback. The editor and list screens fall
  back to the humanised name (`nombre_cliente` → `Nombre Cliente`). The
  document form wraps each bound token in a `preview-var` span, with the
  literal token as its fallback.
- **Markup** (`placeholder.dfy`): markup as a sequence of literal pieces and
  variable pieces. This covers the pattern of the editor's highlighting
  input rule (`/\{\{([a-zA-Z0-9_]+)\}\}/g`), read as a global left-to-right
  match over a string, and how `replaceAll` of one token acts on such markup.
- **JavaScript built-ins** (`text.dfy`): `trim`, ASCII `\w`, `toUpperCase` on
  word characters, and string-pattern `replaceAll`.
- **Template editor screen** (`editar_plantilla.dfy`): the `Map`-based merge of
  stored bindings with the editor's new bindings, the duplicated record, the
  list of fields not yet associated, and the guard of the association form.
- **Rich-text editor** (`editor_documento.dfy`): a class whose state is the
  document, the selection and the assignment form. It covers selection
  prompts, the manual-assign button, and `asignarCampo`, which replaces the
  selection with `{{name}}` and records the binding.
- **Template list** (`lista_plantillas.dfy`): a class whose state is the list
  plus the in-flight sets for favourites and duplicates. It covers the
  optimistic favourite toggle and its revert, and the duplicate payload.
- **Document form** (`generar_documento.dfy`): the initial empty values, the
  input change, and the input type chosen by field kind.
- **Share dialog** (`modal_compartir.dfy`): a class whose state is the selected
  users, the permission and the message. It covers the user toggle and the
  two halves of `handleCompartir`.
- **Shared pieces**: records in `types.dfy`; list helpers (`filter`, and the
  key order of a JavaScript `Map`) in `seqs.dfy`.

Every asynchronous handler is split at its `await`. A start method returns the
request the handler would send. An end method takes the outcome of that
request as a parameter.

The model follows the code where it is less strict than one might expect:

- `asignarCampo` neither trims nor validates the typed name.
- No screen checks for duplicate names.
- The span preview wraps every bound token, even a repeated one.

## Model

| member | source | states |
|---|---|---|
| Text.ToUpperAscii | frontend/src/components/EditarPlantilla.tsx:12 | `toUpperCase` maps a-z to A-Z (code point minus 32), keeps every other character, and keeps the `\w` class |
| Text.TrimStart | frontend/src/components/EditarPlantilla.tsx:12 | the result is a suffix of the input; everything dropped is whitespace; the result does not start with whitespace |
| Text.TrimEnd | frontend/src/components/EditarPlantilla.tsx:12 | the result is a prefix of the input; everything dropped is whitespace; the result does not end with whitespace |
| Text.Trim | frontend/src/components/EditarPlantilla.tsx:12 | `trim` is `TrimEnd` after `TrimStart`: the result is no longer than the input, and a non-empty result neither starts nor ends with whitespace |
| Text.Utf16Length | frontend/src/components/EditorDocumento.tsx:125 | `length` counts UTF-16 code units: at least one and at most two per character, and exactly one per character when all lie in the Basic Multilingual Plane |
| Text.TrimEmptyIffBlank | frontend/src/components/EditarPlantilla.tsx:198 | `s.trim()` is empty exactly when `s` has no visible character, which is when the `!x.trim()` guards and the `\|\|` fallbacks fire |
| Text.ReplaceAll | frontend/src/components/EditarPlantilla.tsx:13 | string-pattern `replaceAll`, occurrences taken left to right without overlap and the inserted text never searched again (no contract of its own; the lemmas below state its properties) |
| Text.ReplaceAllSameLength | frontend/src/components/EditarPlantilla.tsx:13 | a replacement as long as the pattern keeps the length of the text |
| Text.ReplaceAllAbsent | frontend/src/components/EditarPlantilla.tsx:13 | `replaceAll` of a pattern that does not occur returns its input |
| Text.ReplaceAllSelf | frontend/src/components/EditarPlantilla.tsx:13 | replacing a pattern by itself changes nothing |
| Placeholder.MatchAtFront | frontend/src/components/EditorDocumento.tsx:53 | the pattern tried at the front of a string: a captured name's token `{{name}}` fits in the string (that it is the token of an identifier is `MatchAtFrontSound`) |
| Placeholder.ScanFrom | frontend/src/components/EditorDocumento.tsx:53 | the global matches from a given offset, resuming behind each match as `lastIndex` does (no contract of its own; `ScanFromBound`, `ScanFromMatches` and `ScanFromOrdered` state its properties) |
| Placeholder.ScanFromBound | frontend/src/components/EditorDocumento.tsx:53 | each match takes at least the five characters of `{{x}}` and matches do not overlap, so there are at most a fifth as many matches as characters |
| Placeholder.Scan | frontend/src/components/EditorDocumento.tsx:53 | the global matches of the pattern in a whole string, at most one per five characters |
| Placeholder.WordRunMaximal | frontend/src/components/EditorDocumento.tsx:53 | the greedy `\w+` run at the front is maximal: every character in it is a word character and the one after it is not |
| Placeholder.MatchAtFrontSound | frontend/src/components/EditorDocumento.tsx:53 | a match of the highlighting pattern at the front is a token whose name is a non-empty `\w+` identifier |
| Placeholder.MatchAtFrontToken | frontend/src/components/EditorDocumento.tsx:53 | the pattern matches `{{name}}` followed by anything, and captures exactly `name`, for any identifier |
| Placeholder.MatchedAtShift | frontend/src/components/EditorDocumento.tsx:53 | a match found in a suffix lies at the same absolute position in the whole text |
| Placeholder.ScanFromMatchesAt | frontend/src/components/EditorDocumento.tsx:53 | the occurrence at any given place in the scan's result is a real token at the position it reports |
| Placeholder.ScanFromMatches | frontend/src/components/EditorDocumento.tsx:53 | every occurrence that the global scan reports is a real token at the position it reports |
| Placeholder.ScanFromOrdered | frontend/src/components/EditorDocumento.tsx:53 | the occurrences come left to right and do not overlap |
| Placeholder.RenderAppend | frontend/src/components/EditorDocumento.tsx:53 | rendering distributes over concatenation of markup |
| Placeholder.ScanSkipsLiteral | frontend/src/components/EditorDocumento.tsx:53 | text without braces holds no match and only shifts later positions |
| Placeholder.ScanReadsToken | frontend/src/components/EditorDocumento.tsx:53 | a token at the front is reported at its position and the scan resumes after it |
| Placeholder.ScanRender | frontend/src/components/EditorDocumento.tsx:53 | the scan of rendered well-formed markup finds exactly its variable pieces, at their rendered positions |
| Placeholder.ScanOfToken | frontend/src/components/EditorDocumento.tsx:53 | the pattern run over `{{name}}` alone matches exactly once, at position 0, capturing `name` |
| Placeholder.TokenMismatch | frontend/src/components/EditarPlantilla.tsx:13 | the token of another identifier never starts with `{{v}}` |
| Placeholder.IdentifierNoBrace | frontend/src/components/EditarPlantilla.tsx:13 | an identifier followed by the closing braces holds no opening brace |
| Placeholder.ReplaceAllSingleBrace | frontend/src/components/EditarPlantilla.tsx:13 | a lone `{` that does not start the pattern is copied and the search goes on after it |
| Placeholder.ReplaceAllOtherToken | frontend/src/components/EditarPlantilla.tsx:13 | `replaceAll` of `{{v}}` copies the token of any other name unchanged |
| Placeholder.ReplaceAllRender | frontend/src/components/EditarPlantilla.tsx:13 | on well-formed markup, `replaceAll` of `{{v}}` replaces exactly the variable pieces named `v` |
| Preview.SpaceUnderscores | frontend/src/components/EditarPlantilla.tsx:12 | `replace(/_/g, ' ')` keeps the length and leaves no underscore |
| Preview.CapitalizeFrom | frontend/src/components/EditarPlantilla.tsx:12 | `replace(/\b\w/g, l => l.toUpperCase())` keeps the length (what it does per character is `CapitalizeFromAt`) |
| Preview.Humanize | frontend/src/components/EditarPlantilla.tsx:12 | the humanised fallback of a name has the name's length (its characters are described by `HumanizeAt`) |
| Preview.CapitalizeFromAt | frontend/src/components/EditarPlantilla.tsx:12 | `/\b\w/g` upper-cases exactly the word characters not preceded by a word character; the length is kept |
| Preview.HumanizeAt | frontend/src/components/EditarPlantilla.tsx:12 | humanising keeps the length, turns each `_` into a space, upper-cases each character that starts an alphanumeric word, and keeps the rest |
| Preview.HumanizeNoUnderscore | frontend/src/components/EditarPlantilla.tsx:12 | a humanised name has no underscore |
| Preview.HumanizeIdempotent | frontend/src/components/EditarPlantilla.tsx:12 | humanising twice is humanising once |
| Preview.HumanizeNoBrace | frontend/src/components/EditarPlantilla.tsx:12 | the humanised fallback of an identifier holds no brace |
| Preview.HumanizeUnderscore | frontend/src/components/EditarPlantilla.tsx:12 | `x_y` humanises to the humanised `x`, a space, and the humanised `y` |
| Preview.HumanizeWord | frontend/src/components/EditarPlantilla.tsx:12 | an alphanumeric word gets only its first letter upper-cased |
| Preview.HumanizeNombre | frontend/src/components/EditarPlantilla.tsx:12 | `nombre` humanises to `Nombre` |
| Preview.HumanizeCliente | frontend/src/components/EditarPlantilla.tsx:12 | `cliente` humanises to `Cliente` |
| Preview.HumanizeExample | frontend/src/components/EditarPlantilla.tsx:12 | `nombre_cliente` humanises to `Nombre Cliente` |
| Preview.TrimmedValue | frontend/src/components/GenerarDocumento.tsx:15 | `datos[v]?.trim()` is truthy exactly when `v` has a value with a visible character, and it is then the trimmed value |
| Preview.Replacement | frontend/src/components/GenerarDocumento.tsx:14-16 | editor and list screens: the trimmed value, else the humanised name. Form: a `preview-var` span around the trimmed value, else around the literal token |
| Preview.Step | frontend/src/components/EditarPlantilla.tsx:12-13 | one binding's step: `replaceAll` of its token by its replacement (no contract of its own; `PreviewSnoc` and `PreviewUntouched` state its effect) |
| Preview.PreviewFold | frontend/src/components/EditarPlantilla.tsx:9-16 | the reference meaning of `getPreviewHtml`: the steps of the bindings applied in list order (no contract of its own; the lemmas below state its properties) |
| Preview.PreviewFoldTwo | frontend/src/components/EditarPlantilla.tsx:11-14 | two bindings are two steps, in list order |
| Preview.GetPreviewHtml | frontend/src/components/EditarPlantilla.tsx:9-16 | the loop's result is the left fold of one `replaceAll` per binding, in binding order |
| Preview.PreviewSnoc | frontend/src/components/EditarPlantilla.tsx:11-14 | one more binding applies one more `replaceAll` to the preview so far |
| Preview.PreviewUntouched | frontend/src/components/EditarPlantilla.tsx:9-16 | a template holding no bound token is its own preview |
| Preview.ReplacementPiecesRender | frontend/src/components/GenerarDocumento.tsx:15-17 | every replacement is well-formed markup; only the span's literal fallback holds a variable piece |
| Preview.SubstWellFormed | frontend/src/components/EditarPlantilla.tsx:13 | substituting well-formed markup for a variable keeps the markup well-formed |
| Preview.PreviewPieces | frontend/src/components/EditarPlantilla.tsx:11-14 | on well-formed markup, the string fold equals the fold of substitutions on pieces |
| Preview.ResolveAppend | frontend/src/components/EditarPlantilla.tsx:11-14 | resolving the bound variables distributes over concatenation |
| Preview.ResolveFree | frontend/src/components/EditarPlantilla.tsx:11-14 | markup without bound variables resolves to itself |
| Preview.ResolveSubst | frontend/src/components/GenerarDocumento.tsx:12-20 | substitution followed by resolution equals resolution, when the replacement brings no variable still to be resolved |
| Preview.PieceFoldResolve | frontend/src/components/GenerarDocumento.tsx:12-20 | the fold equals one simultaneous resolution of every bound name. This holds for the humanised fallback, and for the span fallback when names are distinct |
| Preview.PreviewResolves | frontend/src/components/EditarPlantilla.tsx:9-16 | when the template's literal text holds no `{`, names are identifiers and values hold no braces, the preview is the markup with each bound variable replaced by its value or fallback, unbound tokens staying: under these conditions bindings do not interfere |
| Preview.PreviewInterference | frontend/src/components/EditarPlantilla.tsx:9-16 | without the brace-free condition bindings do interfere: `{{{{a}}}}` with `a` valued `b` and `b` bound but blank previews as `B` |
| Preview.BracedToken | frontend/src/components/EditarPlantilla.tsx:13 | `replaceAll` of a token inside two extra braces copies the braces and replaces the token, so a new token can form |
| Preview.PreviewExample | frontend/src/components/EditarPlantilla.tsx:9-16 | `Hola {{nombre_cliente}}, {{otro}}` with `nombre_cliente` bound and blank becomes `Hola Nombre Cliente, {{otro}}` |
| Seqs.Filter | frontend/src/components/EditarPlantilla.tsx:291 | `filter` keeps exactly the elements satisfying the test, every copy of each, in their order |
| Seqs.FilterDistinct | frontend/src/components/ModalCompartirPlantilla.tsx:39 | filtering a list without repetitions leaves it without repetitions |
| Seqs.FilterAll | frontend/src/components/ModalCompartirPlantilla.tsx:39 | a filter that drops nothing returns the list |
| Seqs.FirstIndex | frontend/src/components/EditarPlantilla.tsx:151-154 | the position of the first occurrence |
| Seqs.Dedup | frontend/src/components/EditarPlantilla.tsx:151-155 | the key list of a `Map` after one `set` per element, never longer than the input (its contents are `DedupSpec`, its order `DedupOrdered` and `DedupSnoc`) |
| Seqs.DedupSpec | frontend/src/components/EditarPlantilla.tsx:151-155 | the keys of a `Map` after one `set` per element: each element once, nothing else |
| Seqs.DedupSnoc | frontend/src/components/EditarPlantilla.tsx:151-155 | one more `set`: a key already present keeps its place, a new key goes last |
| Seqs.FirstIndexPrefix | frontend/src/components/EditarPlantilla.tsx:151-154 | the first occurrence in a prefix is the first occurrence in the whole list |
| Seqs.DedupOrdered | frontend/src/components/EditarPlantilla.tsx:151-155 | the keys come in the order of their first `set` |
| Seqs.DedupDistinct | frontend/src/components/EditarPlantilla.tsx:151-155 | a list without repetitions keeps all its elements in place |
| Types.ToCampoRefs | frontend/src/components/EditarPlantilla.tsx:157-161 | each stored binding maps to `{campo_id: campo, nombre_variable}`, with order and length kept |
| Types.TipoId | frontend/src/components/EditarPlantilla.tsx:80 | `tipo?.id \|\| tipo_info?.id` gives the first non-zero id, or nothing when neither is non-zero |
| Types.CopiaNombre | frontend/src/components/EditarPlantilla.tsx:265 | the copy's name is the name followed by ` (Copia)` |
| EditarPlantilla.NamesPrefix | frontend/src/components/EditarPlantilla.tsx:151-154 | the names of a prefix are the prefix of the names |
| EditarPlantilla.LastWith | frontend/src/components/EditarPlantilla.tsx:152-154 | the index of the last binding with a name: that binding has it, and no later one does |
| EditarPlantilla.Merged | frontend/src/components/EditarPlantilla.tsx:150-156 | the reference meaning of the merge: every entry is one of the input bindings and carries one of the input names (the full specification is `MergedSpec`) |
| EditarPlantilla.MergedSpec | frontend/src/components/EditarPlantilla.tsx:150-156 | merged names are distinct and the same as the input's; each entry is the last binding with its name; entries follow the first appearance of their names |
| EditarPlantilla.MergedDistinctNames | frontend/src/components/EditarPlantilla.tsx:150-156 | bindings with distinct names pass the merge unchanged |
| EditarPlantilla.GetPreviewHtml | frontend/src/components/EditarPlantilla.tsx:9-16 | the editor's preview is the fold with the humanised fallback |
| EditarPlantilla.MergeByName | frontend/src/components/EditarPlantilla.tsx:150-156 | the loop of `set`s on a `Map`, read back with `values()`, computes the merge |
| EditarPlantilla.MergeStep | frontend/src/components/EditarPlantilla.tsx:152-154 | one `set` keyed by `nombre_variable` keeps the map's keys in first-`set` order, each holding the last binding set under it |
| EditarPlantilla.CamposPayload | frontend/src/components/EditarPlantilla.tsx:141-162 | the saved bindings are the merge of stored and editor bindings when the editor has any, and the stored ones otherwise (also the duplicate's bindings at lines 239-259) |
| EditarPlantilla.MergeExample | frontend/src/components/EditarPlantilla.tsx:150-156 | stored `a,b` with new `b,c`: the new `b` takes the stored `b`'s place and `c` goes last |
| EditarPlantilla.Duplicado | frontend/src/components/EditarPlantilla.tsx:264-270 | the duplicate carries the copy name and the edited description. Its body is the edited one, or the stored one when the edited body is empty. It has no type and the given bindings |
| EditarPlantilla.CamposNoAsociados | frontend/src/components/EditarPlantilla.tsx:291 | exactly the fields that no stored binding uses, every copy of each, in their order |
| EditarPlantilla.PuedeAsociar | frontend/src/components/EditarPlantilla.tsx:197-201 | association proceeds exactly when a non-zero field is chosen and the name is not blank |
| EditorDocumento.ReplaceRange | frontend/src/components/EditorDocumento.tsx:154 | the document with a range replaced: its length loses the range and gains the new text |
| EditorDocumento.ReplaceRangeParts | frontend/src/components/EditorDocumento.tsx:154 | the text before the range is kept, the new text follows, then the text after the range |
| EditorDocumento.ReplaceRangeDeleteInsert | frontend/src/components/EditorDocumento.tsx:154 | deleting the selection and inserting at the collapsed cursor is one replacement of the selection |
| EditorDocumento.ReplaceRangeUndo | frontend/src/components/EditorDocumento.tsx:154 | putting the removed text back restores the document |
| EditorDocumento.AssignedTokenHighlighted | frontend/src/components/EditorDocumento.tsx:50-56 | after assignment of an identifier, the highlighting pattern matches the new token at the insertion point |
| EditorDocumento.SelectionAction | frontend/src/components/EditorDocumento.tsx:123-138 | the prompt is scheduled to open exactly for a non-blank selection longer than one UTF-16 code unit, and to close exactly for an empty selection |
| EditorDocumento.SelectionSingleChar | frontend/src/components/EditorDocumento.tsx:125 | a lone visible character opens the prompt exactly when it lies outside the Basic Multilingual Plane, its `length` being 2 |
| EditorDocumento.Editor.constructor | frontend/src/components/EditorDocumento.tsx:74-77 | the editor starts with the initial text, a collapsed selection, no bindings, an empty form and the prompt closed |
| EditorDocumento.Editor.OnSelectionUpdate | frontend/src/components/EditorDocumento.tsx:115-139 | the selection moves, and the returned action is what the timer will do to the prompt |
| EditorDocumento.Editor.FireTimer | frontend/src/components/EditorDocumento.tsx:127-137 | the timer opens, closes or leaves the prompt as scheduled; nothing else changes |
| EditorDocumento.Editor.AbrirManual | frontend/src/components/EditorDocumento.tsx:258-269 | the manual button opens the prompt exactly for a non-empty, non-blank selection; otherwise it alerts and changes nothing |
| EditorDocumento.Editor.SeleccionarCampo | frontend/src/components/EditorDocumento.tsx:354 | choosing a field sets only the chosen field |
| EditorDocumento.Editor.EscribirNombre | frontend/src/components/EditorDocumento.tsx:373 | typing the name sets only the name |
| EditorDocumento.Editor.DeleteRange | frontend/src/components/EditorDocumento.tsx:154 | the selection is removed and collapses at its start |
| EditorDocumento.Editor.InsertContent | frontend/src/components/EditorDocumento.tsx:154 | text is inserted at the cursor, which ends after it |
| EditorDocumento.Editor.AsignarCampo | frontend/src/components/EditorDocumento.tsx:142-179 | with no field or a blank name, an alert and no change. With an empty selection, no change. Otherwise the selection becomes `{{name}}`, one binding holding the selected text is appended, and the form is reset and closed |
| ListaPlantillas.EsFavorito | frontend/src/components/ListaPlantillas.tsx:145 | `es_favorito` as a condition: true only for a flag that is present and true (no contract of its own; `ToggleFavorito` and `IniciarFavorito` use it) |
| ListaPlantillas.ToggleFavorito | frontend/src/components/ListaPlantillas.tsx:136-142 | the optimistic update flips the flag of exactly the entries with the id (an absent flag counts as false) |
| ListaPlantillas.RevertFavorito | frontend/src/components/ListaPlantillas.tsx:154-160 | the revert gives the captured flag back to exactly the entries with the id |
| ListaPlantillas.ToggleRevert | frontend/src/components/ListaPlantillas.tsx:136-160 | toggle followed by revert restores the list |
| ListaPlantillas.DuplicarPayload | frontend/src/components/ListaPlantillas.tsx:99-110 | the payload carries the copy name, description and body (or empty), the first non-zero type id, and one `{campo_id, nombre_variable}` per stored binding (none if absent) |
| ListaPlantillas.GetPreviewHtml | frontend/src/components/ListaPlantillas.tsx:57-64 | the list's preview is the fold with the humanised fallback |
| ListaPlantillas.Pagina.constructor | frontend/src/components/ListaPlantillas.tsx:8-14 | an empty list, no calls in flight, no error |
| ListaPlantillas.Pagina.CargarPlantillas | frontend/src/components/ListaPlantillas.tsx:20-30 | a loaded list replaces the list; a failed load sets the load error and keeps the list |
| ListaPlantillas.Pagina.IniciarDuplicado | frontend/src/components/ListaPlantillas.tsx:85-110 | a repeated click on a template being duplicated does nothing. Otherwise the id joins the in-flight set, the error clears, and the payload is sent |
| ListaPlantillas.Pagina.TerminarDuplicado | frontend/src/components/ListaPlantillas.tsx:111-128 | success reloads the list and failure sets the duplicate error; either way only this id leaves the set |
| ListaPlantillas.Pagina.IniciarFavorito | frontend/src/components/ListaPlantillas.tsx:131-149 | a repeated click does nothing. Otherwise the id joins the set, the flag is flipped, and the call is chosen by the flag as clicked |
| ListaPlantillas.Pagina.TerminarFavorito | frontend/src/components/ListaPlantillas.tsx:152-168 | failure reverts to the captured flag and sets the error; either way only this id leaves the set |
| ListaPlantillas.Pagina.FavoritoFallido | frontend/src/components/ListaPlantillas.tsx:131-168 | a click whose call fails leaves the list and the in-flight set as they were |
| GenerarDocumento.GetPreviewHtml | frontend/src/components/GenerarDocumento.tsx:12-20 | the form's preview is the fold with the span fallback |
| GenerarDocumento.DatosIniciales | frontend/src/components/GenerarDocumento.tsx:158-165 | the initial values have exactly the bound names as keys, each with an empty value |
| GenerarDocumento.InicialesSinValor | frontend/src/components/GenerarDocumento.tsx:158-165 | with the initial values, every bound name shows its fallback |
| GenerarDocumento.HandleInputChange | frontend/src/components/GenerarDocumento.tsx:167-172 | the changed name gets the new value; every other key is kept |
| GenerarDocumento.InputChangeLocal | frontend/src/components/GenerarDocumento.tsx:167-172 | typing for one name leaves the replacement of every other name unchanged |
| GenerarDocumento.InputType | frontend/src/components/GenerarDocumento.tsx:240-241 | `date` exactly for `fecha`, `number` exactly for `numero`, and `text` otherwise |
| ModalCompartir.Without | frontend/src/components/ModalCompartirPlantilla.tsx:39 | `filter(uid => uid !== id)` keeps every copy of every other user, in order |
| ModalCompartir.ToggleUsuario | frontend/src/components/ModalCompartirPlantilla.tsx:37-41 | a selected user is removed; an unselected one is appended |
| ModalCompartir.ToggleMembership | frontend/src/components/ModalCompartirPlantilla.tsx:37-41 | the toggle flips exactly this user's membership |
| ModalCompartir.ToggleDistinct | frontend/src/components/ModalCompartirPlantilla.tsx:37-41 | the selection never holds a user twice |
| ModalCompartir.ToggleTwice | frontend/src/components/ModalCompartirPlantilla.tsx:37-41 | toggling twice restores the membership, and restores the list when the user was not selected |
| ModalCompartir.FilterSnocDropped | frontend/src/components/ModalCompartirPlantilla.tsx:39 | removing a user appended last undoes the append |
| ModalCompartir.Modal.constructor | frontend/src/components/ModalCompartirPlantilla.tsx:13-17 | no users selected, read permission, no message, not busy |
| ModalCompartir.Modal.Abrir | frontend/src/components/ModalCompartirPlantilla.tsx:27-32 | opening clears the selection and the message |
| ModalCompartir.Modal.Toggle | frontend/src/components/ModalCompartirPlantilla.tsx:37-41 | a click toggles the user in the selection |
| ModalCompartir.Modal.IniciarCompartir | frontend/src/components/ModalCompartirPlantilla.tsx:43-48 | with nobody selected, nothing happens. Otherwise the dialog is busy, the message clears, and it shares with the selection at the chosen permission |
| ModalCompartir.Modal.TerminarCompartir | frontend/src/components/ModalCompartirPlantilla.tsx:49-62 | a successful share clears the selection; it shows the shared message unless the reload of shared users then fails (for a non-zero id), which shows the error with the selection already cleared; a failed share shows the error and keeps the selection; either way the dialog is no longer busy |
| ModalCompartir.Modal.MensajeExpirado | frontend/src/components/ModalCompartirPlantilla.tsx:50-52 | the message timer sets the message to the empty string |

## Left out

- `replaceAll` replacement patterns: a `$&`, `$1` or `$$` in a typed value is expanded by JavaScript. `Text.ReplaceAll` inserts the value literally.
- Network calls (`getPlantillas`, `duplicarPlantilla`, `agregarFavorito`, `quitarFavorito`, `compartirPlantilla`, `getUsuarios`, `getUsuariosCompartidos`): only their outcome is modelled, as a parameter of the end method. After a share, the reload of shared users is modelled by its outcome only; the list it loads is not. Fetching users, revoking shares and the `onCompartido` callback are not modelled.
- Timers: `OnSelectionUpdate` returns the scheduled action and `FireTimer` performs it. The 700 ms and 200 ms delays are not modelled. Neither is `clearTimeout` cancelling a pending action.
- The tiptap/ProseMirror document is a flat string. A selection is a pair of positions, `textBetween` is a slice, and HTML structure, marks and `editor.getHTML()` are not modelled. The null-`editor` check and the `onChange` notification to the parent are left out.
- Alerts are returned outcomes (`MissingInput`, `abierto == false`), not dialogs.
- The `cargando` spinner flags of the list and editor screens are not modelled. Neither are routing, PDF/DOCX export or the other screens.
- A key such as `constructor` or `__proto__` in the `datos` record: JavaScript would read an inherited property. The model reads only the entries the screen wrote.
- `texto_seleccionado` is kept in `EditorDocumento.CampoAsignado`. The payload sent to the editor screen drops it, so the merge works on `CampoRef` values.
- Preview.PreviewResolves: requires literal template text without `{`, identifier names and values without braces. Without the first, bindings interfere (`Preview.PreviewInterference`). With the span fallback it also requires distinct names, because a repeated blank name nests spans.
- EditorDocumento.Editor.AsignarCampo: the token is inserted as plain text. tiptap's `insertContent` parses a string as HTML, so a typed name holding markup or an entity such as `&amp;` is not inserted verbatim in the source.
- Highlighting: the pattern is a tiptap input rule, which fires on text as it is typed, not on `insertContent` or on loaded content. `Placeholder.Scan` is the pattern's global match over a string, not a pass the editor makes over the document.
- GenerarDocumento.GetPreviewHtml: the unused `onClickVar` parameter is left out.
- Numeric ids are unbounded integers. JavaScript numbers are not modelled.
