# SubmissionsForm batch-entry state, in Dafny

A model of the state behind the factory portal's "New Submission" form
(`submits/src/components/SubmissionsForm.jsx`). A factory user enters a
factory name and one or more sample rows, then posts the whole batch. The
model covers:

- the four pieces of state: `factoryName`, the ordered list `submissions`,
  `submitted` and `loading`;
- the row editor: add a default row, remove a row by position, overwrite
  one field of one row;
- the payload mapping of the submit handler. Each row becomes a wire record
  that carries the shared factory name. The carrier choice `Other` is
  replaced by the typed carrier name, and every record gets status `New`;
- the submit state machine. An empty factory name stops it early.
  Otherwise `loading` is set and the response is handled: ok marks the batch
  submitted, not-ok or a thrown error leaves everything as it was, and
  `loading` is cleared in every case;
- "Submit Another Batch", which returns the form to one default row and no
  factory name.

Files:

- `js_array.dfy` (module `JsArray`): the `splice(start, 1)` the remove
  handler uses. A negative start counts from the end; a start past the end
  removes nothing.
- `rows.dfy` (module `Rows`): a row, the eight field names `handleChange` is
  called with, reading a field and overwriting one.
- `wire.dfy` (module `Wire`): the wire record, the payload, and lemmas that
  relate the payload to each row edit.
- `form.dfy` (module `Form`): class `SubmissionsForm`, whose methods are the
  handlers. It also holds one end-to-end batch as a client method.

Each handler is one atomic step. The date values the component reads from
the clock are parameters:

- `today` is the formatted date;
- `currentYear` is the year of the row created at mount;
- `futureYear` is the year three months from now, used for added rows and
  reset rows.

The network result is a parameter `Response = Ok | NotOk | Thrown`. The
request the handler would send is returned as a value.

Points where the component's behaviour is easy to miss:

- The row created at mount uses the current year (line 32), while added and
  reset rows use the year three months ahead (lines 43, 51, 128). The model
  keeps both years as separate parameters.
- `year` is a number in a default row but becomes the input's string after
  an edit (line 245). Rows therefore hold `year` as `Value = Str | Num`.
- The submit handler itself does not guard against a second submit while
  `loading`; only the button's `disabled` attribute does (line 317). The
  model does not add a guard to `Submit`.
- The remove handler does not refuse to remove the last row. The button is
  simply not rendered then (line 195). `RemoveRow` is the bare handler, and
  `RemoveButton` adds the rendering guard and keeps the list non-empty.

## Model

| member | source | states |
|---|---|---|
| `Rows.Row.With` | submits/src/components/SubmissionsForm.jsx:67-71 | after storing a string in one field, that field reads back as that string and every other field of the row is unchanged |
| `JsArray.SpliceStart` | submits/src/components/SubmissionsForm.jsx:63 | the position `splice` starts at never lies past the end; a start within the array is used as is; it lies inside the array, so that one element is removed, exactly when the array is not empty and the start is before its end (a negative start counts back from the end) |
| `JsArray.SpliceOne` | submits/src/components/SubmissionsForm.jsx:61-65 | at an index of the array, exactly that element is removed: one element fewer, earlier elements in place, later ones shifted down by one, the multiset loses exactly that element; at the end nothing changes |
| `Wire.DescribesExactly` | submits/src/components/SubmissionsForm.jsx:82-90 | the record `ToWire` builds for a row (the `map` callback) is the one and only record that the field-by-field description holds of: shared factory name, row details copied, the typed carrier in place of `Other`, status `New` |
| `Wire.Payload` | submits/src/components/SubmissionsForm.jsx:81-91 | the payload has one record per row, in the rows' order; each carries the shared factory name, status `New`, the row's details unchanged, the typed carrier when the row's shipper is `Other` and the row's shipper otherwise |
| `Wire.PayloadAppend` | submits/src/components/SubmissionsForm.jsx:81 | the payload of two row lists joined is the two payloads joined |
| `Wire.PayloadAfterAdd` | submits/src/components/SubmissionsForm.jsx:45-59 | appending a row appends exactly that row's record to the payload |
| `Wire.PayloadAfterRemove` | submits/src/components/SubmissionsForm.jsx:61-65 | splicing a row out of the list splices exactly its record out of the payload |
| `Wire.PayloadAfterChange` | submits/src/components/SubmissionsForm.jsx:67-71 | editing a field of row i changes only record i of the payload, which becomes the record of the edited row |
| `Wire.OtherShipperIgnored` | submits/src/components/SubmissionsForm.jsx:88 | when the row's shipper is not `Other`, whatever is typed as the other carrier leaves the record unchanged |
| `Wire.OtherForwardedOnlyWhenTyped` | submits/src/components/SubmissionsForm.jsx:88 | a record's carrier is the literal `Other` exactly when the user chose `Other` and typed `Other` as the carrier name |
| `Form.SubmissionsForm.constructor` | submits/src/components/SubmissionsForm.jsx:27-41 | at mount: empty factory name, one default row (Spring, current year, today, Lab Dip, DHL, empty texts), not submitted, not loading |
| `Form.SubmissionsForm.SetFactoryName` | submits/src/components/SubmissionsForm.jsx:177 | the factory name becomes what was typed; nothing else changes |
| `Form.SubmissionsForm.AddRow` | submits/src/components/SubmissionsForm.jsx:45-59 | one more row; the existing rows are unchanged; the new last row has the defaults with `futureYear` and today; the payload gains exactly that row's record |
| `Form.SubmissionsForm.RemoveRow` | submits/src/components/SubmissionsForm.jsx:61-65 | the list becomes the list with `splice(index, 1)` applied; for an index inside the list, exactly that row is deleted; the payload changes the same way |
| `Form.SubmissionsForm.RemoveButton` | submits/src/components/SubmissionsForm.jsx:195-203 | with more than one row, the row is deleted; with one row, nothing changes; the list never becomes empty |
| `Form.SubmissionsForm.ChangeField` | submits/src/components/SubmissionsForm.jsx:67-71 | for an index with a row: that field of that row becomes the string, every other field and every other row are unchanged, and only that record of the payload changes; for an index without a row: nothing changes (the handler throws) |
| `Form.SubmissionsForm.BeginSubmit` | submits/src/components/SubmissionsForm.jsx:73-91 | empty factory name: no request and `loading` unchanged; otherwise `loading` is set and the request holds one record per row, each described by its row and the factory name |
| `Form.SubmissionsForm.FinishSubmit` | submits/src/components/SubmissionsForm.jsx:100-110 | only an ok response sets `submitted`; not-ok and thrown errors leave it as it was; `loading` is false afterwards in every case |
| `Form.SubmissionsForm.Submit` | submits/src/components/SubmissionsForm.jsx:73-111 | empty factory name: no request and no state change; otherwise the request is the payload of the rows, `loading` ends false and `submitted` becomes true only on an ok response; rows and factory name are never changed |
| `Form.SubmissionsForm.SubmitAnotherBatch` | submits/src/components/SubmissionsForm.jsx:123-136 | not submitted, empty factory name, exactly one default row with `futureYear` and today |
| `Form.AcmeMillsBatch` | submits/src/components/SubmissionsForm.jsx:27-111 | mount, factory "Acme Mills", style "ST-1" and tracking "TRK1" on the only row, then an ok submit: the request is one record with those values and status `New`, and the form is submitted |

## Left out

- Rendering (JSX, `InputGroup`, `StyledInput`, `StyledSelect`, icons): presentation only.
- The `fetch` POST, `JSON.stringify`, the headers, `alert` and `console.error`: I/O. The model returns the request and takes its outcome as a `Response`.
- Date computation with `date-fns` and `new Date()`: the wall clock. Today's date and the two default years are parameters.
- Interleaving of edits with an in-flight request, and the disabled submit button that prevents a second submit: asynchronous UI timing. `BeginSubmit` and `FinishSubmit` expose the two halves, but no scheduler is modelled.
- React's state setters and re-rendering: each handler is one atomic transition of the object's fields.
- `Form.SubmissionsForm.ChangeField`: the source mutates the shared row object in place after a shallow copy of the list (line 69). The model replaces the row value instead. The previous list is discarded after the update, so the sharing is not observable here.
- `Form.SubmissionsForm.ChangeField`: `field` is one of the eight names the inputs pass. An arbitrary property name, which JavaScript would add to the row, is not modelled.
- `e.preventDefault()` (line 74): browser event handling.
- Browser form validation: the `required` inputs (lines 175, 211, 243, 254, 278, 292) stop the browser from calling the submit handler while the factory name, a style number, year, date, tracking number or (for `Other`) carrier name is empty. `Form.SubmissionsForm.BeginSubmit` and `Form.SubmissionsForm.Submit` model the handler without that validation, so they accept such states; only the handler's own empty-factory check is modelled. Cases such as an `Other` row with an empty carrier name (`Wire.OtherForwardedOnlyWhenTyped`) cannot reach the backend from a browser.
