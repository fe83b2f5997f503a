# DigitalAltar page script, modelled in Dafny

DigitalAltar is a browser client for a digital memorial board, an *ofrenda*.
The board is a fixed grid of twelve picture frames. Each frame holds a
memorial entry: a name, dates, a description and a photo. A create/edit dialog
edits the entries through a JSON API at `/data`. This project models the
decisions that `public/script.js` makes inside its DOM and `fetch` wiring, and
proves properties about them:

- `Js` holds the JavaScript value semantics the script relies on: JSON
  primitives, truthiness, `String(…)`, `a || b`, `trim() === ''` and
  `substring(0, n)`. A number is represented by its canonical string form.
  `Wrappers` holds `Option`, whose `None` plays the part of `undefined`.
- `FormCodec` is the edit form.
  - Its controls live in a `Form` object. `Form.GetFormData` is
    `getFormData`: a loop over the inputs that rewrites the FormData object in
    place. It is proved equal to the functional reading `Encode`, including the
    `TypeError` and `RangeError` the JavaScript can throw.
  - `EncodeMeaning` states the field-by-field encoding rules.
  - `Form.EditItem` is the population loop of `editItem`. It is proved equal
    to `Populated`, and the lemmas beside it say what that loop does.
  - `FormRoundTrip` proves that populating a form from its own encoding gives
    the form back.
- `Altar` is the grid. `RenderAltar` is `renderAltar`'s counted loop. The
  lemmas prove that there are always twelve slots, that slot `i` shows
  `items[i]` exactly when that entry exists, that entries past the twelfth
  never appear, and that the fallback texts are used. `DetailOf` is the
  detail view, with `?` shown for an unknown date.
- `DataClient` holds the request decisions. Every `fetch` is abstracted into
  an outcome: it throws, or a response arrives with its `ok` flag, its status
  text, and a body that does or does not parse as JSON. The module covers
  create-versus-update routing, the save and delete message policies, the
  submit handler, the delete confirmation, and the `Page` status flags that
  `getData` sets.

The JavaScript runtime conversions are parameters and are not modelled:
`Number(s)` printed back as a string, `new Date(s).toISOString()` (None when it
throws), and `toLocaleDateString`. `confirm` is a boolean input. `alert` is a
returned message.

Behaviour of the script worth knowing, which the model keeps:

- After a save, the submit handler resets the form and closes the dialog even
  when the save failed (`Submit`, `closesDialog`), so the user's input is lost.
- On a thrown list request, `getData` only shows the not-ready status. The
  ready status, the create button and the previously rendered grid stay as
  they were.
- A checkbox, number, range or date input without a name still writes the key
  `""` into the encoded object.
- An ok response whose body is not JSON makes `response.json()` throw. Save
  and delete then show their generic error and do not refresh. `getData` ends
  with both the ready and the not-ready status shown.
- The detail view prints `undefined` as the alt text and heading of an entry
  without a name. The frame's alt text falls back to `Memorial` instead.

## Model

| member | source | states |
|---|---|---|
| `FormCodec.Form.GetFormData` | public/script.js:17-42 | The loop returns what getFormData computes, for forms outside the cases listed under "## Left out" (names inherited from `Object.prototype`, select options, controls outside the form, `_charset_`, `dirname`): the FormData object, with every checkbox, number, range and date input overwritten in tree order. It returns None when an iteration throws, either from `trim` on an already converted non-string or from `toISOString` on an invalid date. |
| `FormCodec.EncodeMeaning` | public/script.js:20-40 | When no other input shares a typed input's name, encoding succeeds exactly when every typed field converts. The keys are then the FormData names plus the typed inputs' names. A checkbox holds its checked flag. A number or range holds null when its raw value is missing or whitespace-only, and its numeric conversion otherwise. A date holds null when empty, and its ISO string otherwise. Every other key keeps its raw FormData string. |
| `FormCodec.ElementFor` | public/script.js:122-123 | `myForm.elements[key]` finds the first control with that name. It finds nothing for the empty name or a name no control has (array-index keys and image inputs aside, see below). |
| `FormCodec.Assign` | public/script.js:124-131 | An assignment keeps the control's name, element type and disabled flag. It throws exactly when a date input receives a truthy non-string. `null` stores `""` in an input, a textarea or a select, and `"null"` in a `<button>`, whose `value` setter does not treat null as empty. |
| `FormCodec.Populated` | public/script.js:121-133 | Populating changes only the controls' values and checked flags, never their number, names or types. |
| `FormCodec.Form.EditItem` | public/script.js:121-133 | The loop over `Object.keys(data)` leaves the controls as `Populated` describes. It returns false when an assignment throws, and the assignments already made stay in place. |
| `FormCodec.PopulatedOk` | public/script.js:121-133 | The population runs to the end exactly when no key names a date input whose stored value is a truthy non-string. |
| `FormCodec.PopulatedResult` | public/script.js:121-133 | On success, the control each key finds holds that key's assignment. A checkbox takes the value's truthiness. A date takes the first ten characters, or `""` when the value is falsy. Any other control takes the value as a string. Keys with no matching control are ignored, and every other control is unchanged. |
| `FormCodec.DateInputTakesCalendarDate` | public/script.js:126-128 | A date input receives the `YYYY-MM-DD` part of a stored ISO 8601 date-time, and `""` for a null value. |
| `FormCodec.FormRoundTrip` | public/script.js:17-133 | Take a form with distinct names and enabled controls, whose number and date texts the runtime gives back unchanged. Populating it from its own getFormData result, in any key order, runs to the end and leaves every control as it was. |
| `Altar.RenderAltar` | public/script.js:238-288 | The counted loop builds the altar as `AltarOf(items)`: one frame per slot, followed by the altar background. |
| `Altar.ProjectionSlots` | public/script.js:243-276 | The grid has exactly `MAX_SLOTS` (12) slots. Slot `i` is filled exactly when `items[i]` exists, and it is then filled with `items[i]`. |
| `Altar.ProjectionTruncates` | public/script.js:12-279 | The filled slots hold exactly the first min(length, 12) entries, in input order, so an entry at index 12 or beyond never appears. The remaining 12 − min(length, 12) slots are empty. |
| `Altar.AltarFrames` | public/script.js:243-285 | The altar has 12 frames followed by the `assets/altar.svg` background. A frame with an entry is not marked empty and opens that entry's detail view. A frame without one is the skull placeholder, alt text "Empty frame", no tooltip, marked empty, and it opens the create dialog. |
| `Altar.FilledFrameFallbacks` | public/script.js:250-260 | A filled frame shows `imageUrl` when it is present and `assets/skull.svg` otherwise. Its alt text is `name + " " + (lastName or "")` when `name` is present and `Memorial` otherwise. It has a tooltip, equal to that display name, exactly when `name` is present. |
| `Altar.DetailDates` | public/script.js:187-207 | In the detail view's dates line, each of the birth and death dates shows as `?` when it is absent or empty, and through the date formatter when it is present, in all four combinations. |
| `Altar.SingleEntryScenario` | public/script.js:187-279 | Rendering the single entry Ana, with a birth date and no death date, puts Ana in slot 0, shows `?` for the death date, and leaves slots 1 to 11 empty. |
| `DataClient.SaveRequest` | public/script.js:76-77 | Data with a truthy `id` is sent as `PUT /data/{id}`. Data without one is sent as `POST /data`. |
| `DataClient.SaveEffect` | public/script.js:88-113 | A save refreshes the list exactly when the response is ok and its body parses. It alerts exactly when it does not refresh. |
| `DataClient.SaveMessages` | public/script.js:91-112 | A non-ok response with a readable JSON body alerts `errorData.error`, falling back to `statusText`. A non-JSON or `null` error body alerts `'Failed to save: ' + statusText`. A thrown request, or an ok response whose body does not parse, alerts the generic message. |
| `DataClient.RejectedCreateScenario` | public/script.js:91-96 | A 400 response with `{"error": "name is required"}` alerts "name is required" and does not refresh. |
| `DataClient.Submit` | public/script.js:45-52 | When getFormData throws, nothing is sent and the dialog stays open. Otherwise the save request for the data is sent, and the dialog is closed whatever the outcome. The handler's effect is then exactly saveItem's: it alerts saveItem's message (for example the server's `error` text) and refreshes the list, and it alerts nothing exactly when the save succeeded. |
| `DataClient.DeleteEffect` | public/script.js:156-181 | A declined confirmation sends nothing, alerts nothing and refreshes nothing. A confirmed delete sends `DELETE /data/{id}`. It refreshes exactly when the response is ok and parses, and it alerts exactly when it does not refresh. |
| `DataClient.DeleteMessages` | public/script.js:164-180 | A non-ok response with a readable body alerts `errorData.error`, falling back to `'Failed to delete item'`. A thrown request or an unreadable body alerts the generic delete message. |
| `DataClient.Page.GetData` | public/script.js:291-319 | An ok list shows ready, hides not-ready, and renders the altar from the list. A non-ok response shows not-ready and hides ready, the create button and the content area. A thrown request only shows not-ready. After any outcome, at least one of the two statuses is shown. |

## Left out

- DOM construction, `querySelector`, `classList`, `style.opacity`, `innerHTML`, headings, `showModal`/`close`, `myForm.reset()` and the event-listener registrations are left out. They are UI plumbing. Only the decisions they encode are modelled.
- `fetch`, HTTP transport, request headers and `JSON.stringify` are left out. They are network I/O, abstracted into the `Outcome` datatype.
- `alert`, `confirm` and `console.*` are left out. They are user I/O. A confirmation is a boolean input, and an alert is a returned message.
- `DOMPurify.sanitize` is left out. It is a foreign library whose behaviour is not visible here.
- `Number(…)`, `new Date(…).toISOString()` and `toLocaleDateString` are left out. They are runtime date and floating-point conversions, taken as uninterpreted parameters.
- `updateButtonVisibility` and the image-preview `src` updates in `editItem` and on reset are left out. upload.js is not part of this model, and the preview is presentation only.
- Async interleaving is left out: double submits, overlapping saves and deletes, and stale refreshes. Each operation is modelled as one sequential step.
- File inputs, multiple selects, controls found by `id`, and several controls sharing a name (which `elements[name]` returns as a RadioNodeList) are left out. The model resolves a name to the first control that carries it.
- The browser's value sanitization of typed inputs after an assignment is left out. The model records the string that is assigned.
- FormCodec.Assign: a `<select>` is modelled as storing the assigned string, with `null` stored as `""`. In the browser the select's `value` setter converts `null` to `"null"`, selects the first option carrying that string, and reads `""` when no option does. Options are not part of the model, so a select's value after an assignment is recorded only as the string assigned.
- Nested objects and arrays as property values, list bodies that parse to something other than an array of objects, and `null` array elements are left out. The entries the script receives are flat JSON objects.
- `substring` counts UTF-16 code units. The model counts Unicode characters, which differs only for characters outside the Basic Multilingual Plane.
- FormCodec.Form.GetFormData: property reads are modelled as own-property lookups. An input named after an `Object.prototype` member (`toString`, `constructor`, `valueOf`, `hasOwnProperty`, …) that has no FormData entry, such as an unchecked checkbox, reads the inherited function in the source. That function is truthy, so `value.trim()` throws a TypeError, while `Encode` treats the name as absent and succeeds. Modelling the prototype chain would put every inherited name into the value model for one corner case.
- FormCodec.Form.GetFormData: the FormData entry list is simplified to one entry per named, enabled, non-button control, checked when checkable, holding its `value`. A `<select>` is modelled by its `value`, so one whose selected option is disabled, or which has no selected option, gets a `""` entry here, while the browser adds no entry for it. A multiple select is not modelled. A hidden input named `_charset_` is recorded with its own value; the browser submits the encoding name instead. The extra entry that a `dirname` attribute adds is not modelled. Options, `_charset_` and `dirname` are left out because they are DOM details the script never touches.
- FormCodec.Form.GetFormData: one list of controls stands both for the form's listed controls (what `new FormData` and `elements` use) and for the `<input>` elements inside the form (what `querySelectorAll('input')` finds). A control that joins the form through a `form` attribute from outside it is in the first set but not the second: the source leaves its FormData string unconverted, and the model converts it (a checkbox's `"on"` becomes `true`). An `<input>` inside the form that is not one of its listed controls is not modelled either. Tree position is not part of the model.
- FormCodec.ElementFor: `myForm.elements[key]` also resolves an array-index key (`"0"`, `"1"`, …) to the control at that position, and the `elements` collection leaves out `<input type=image>`. The model looks controls up by name only and does not exclude image inputs, so for such keys and controls `ElementFor` and `Form.EditItem` differ from the source. The collection's named lookup also does not override the members of its own prototype chain: for a key `length`, `item`, `namedItem`, or an `Object.prototype` member (`toString`, `constructor`, …), `elements[key]` is that member, so the source assigns `value` to it and leaves the control unchanged, while the model finds the control and overwrites it. `<fieldset>`, `<output>` and `<object>` elements, which `elements` also lists, have no `Tag` and are not represented.
- FormCodec.EncodeMeaning: the field-by-field rules are stated only for forms in which no other input shares a typed input's name. `Form.GetFormData` and `Encode` cover every other form, including the ones where the loop throws.
- FormCodec.FormRoundTrip: the round trip is proved only for forms with distinct names and enabled controls, and only where `String(Number(s))` and the calendar-date part of `toISOString` give a field's own text back.
