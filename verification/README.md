# offduty7 admin front-end: the sequential cores, modelled in Dafny

The application is a browser admin front-end for PDF form templates and users.
Almost every state change goes through an external backend (authentication,
tables, object storage). Under those calls sit a few small, deterministic
cores. This project models them as immutable state and pure transition
functions, and proves what their code promises:

- **PDF field-overlay editor** (`pdf_viewer.dfy`, module `PdfViewer`). The
  state is the ordered field list, an optional selected field id, the
  edit-panel flag, the current page and the page count. It covers placing,
  selecting, editing, deleting and page changes, and the page-count callback.
  It also covers loading the field list and saving it against an abstract
  `pdf_fields` table (`field_store.dfy`, module `FieldStore`). The storage
  path is extracted from a template's public URL.
- **Question list and report layout** (`form_generator.dfy`). It covers
  fresh-id generation, renaming and removing questions, answers keyed by
  question id, the layout of the generated report page, and the admin gate on
  the settings panel.
- **Off-duty report mapping** (`off_duty_report.dfy`). It covers the form
  entries, the thirteen text-field assignments, the shift checkbox, the
  signature placement and the captured-signature state.
- **Template upload validation** (`template_upload.dfy`). It covers the PDF
  MIME filter, the default template name, the extension of the stored object,
  the submit guard and the drag flag.
- **Route guards** (`routes.dfy`). A pure function maps a path and "is there a
  session" to a rendered page or a redirect.
- **Record shapes** (`types.dfy`). These are fields, templates and users.
- Helpers: `wrappers.dfy` (Option, Result), `seqs.dfy` (filter) and
  `strings.dfy`. `strings.dfy` models substring search, `replace` with a
  string pattern, the last piece of `split`, and decimal rendering.

Every backend reply (accepted or rejected delete and insert, rows or an error
from a select, the profile lookup) is a parameter. The same holds for every
random or clock-derived value: a new field's id, the random stem of an
uploaded object's name. `viewOnly` is a parameter of the editor's handlers.
The one caller shown always passes `true`
(`src/components/PDFTemplateDetails.tsx:55`).

A few behaviours of the code are easy to miss, and the model keeps them:

- A page change outside `1..numPages` is ignored. The page is not clamped into
  the range.
- The delete handler clears the selection and closes the edit panel whatever
  field was selected, not only when the deleted field was the selected one.
- The only delete control is a button inside the selected field's own box,
  and its click is not stopped there. It bubbles to the field's click
  handler, which selects the field again after the delete. Both handlers read
  the same render's state, so after a click on the button the field is gone,
  its id is still selected and the edit flag is on
  (`PdfViewer.HandleClick`, `PdfViewer.DeleteButtonLeavesDanglingSelection`).
- `App.tsx` declares nine guarded paths besides `/`: `/dashboard`,
  `/vehicle-form`, `/templates`, `/templates/new`, `/templates/:id`, `/users`,
  `/users/new`, `/users/:id` and `/form-generator`. Each of the nine is
  modelled.
- Saving is delete-then-insert. It is not atomic.
  `PdfViewer.SavePartialFailureLosesRows` proves the data-loss case: the
  delete succeeds, the insert fails, and the template is left with no rows.

## Model

| member | source | states |
|---|---|---|
| `PdfViewer.PlaceField` | src/components/PDFViewer.tsx:102-124 | in view-only mode nothing changes; otherwise exactly one field is appended: name "New Field", editable, no value, the click's x/y, 100x20, the current page. Earlier fields are kept unchanged, the new id is selected, the edit panel opens and the page is kept |
| `PdfViewer.PlaceFieldDistinct` | src/components/PDFViewer.tsx:110-121 | after a placement the ids are pairwise distinct iff they were before and the supplied (random, unchecked) id is fresh |
| `PdfViewer.PlaceAllCount` | src/components/PDFViewer.tsx:102-124 | a run of placements adds exactly one field per click and keeps the earlier fields as a prefix. Ids stay distinct when the supplied ids are fresh and pairwise distinct |
| `PdfViewer.SelectField` | src/components/PDFViewer.tsx:126-131 | in view-only mode nothing changes; otherwise the clicked id becomes the selection and the edit panel opens. Fields and page never change |
| `PdfViewer.HandleClick` | src/components/PDFViewer.tsx:186-237 | a click on a field never changes the field list, because propagation to the surface is stopped. In view-only mode no click changes anything, and no click changes the page or the page count. A surface click adds one field and selects it. A click on the delete button, drawn only inside an existing field that is selected for editing, removes every field with that id and keeps every other one, yet leaves that id selected with the edit flag on, because the click bubbles to the field's select handler |
| `PdfViewer.DeleteButtonLeavesDanglingSelection` | src/components/PDFViewer.tsx:126-146 | after the delete button's click the selection names a field that no longer exists, whereas the delete handler on its own would leave nothing selected |
| `PdfViewer.ApplyEdit` | src/components/PDFViewer.tsx:133-140 | an edit changes only the named attribute. Id, value, x, y, width, height and page are kept |
| `PdfViewer.UpdateFields` | src/components/PDFViewer.tsx:133-140 | length and order are kept. Every field whose id matches gets the edit; every other field is unchanged |
| `PdfViewer.UpdateField` | src/components/PDFViewer.tsx:133-140 | an edit keeps the selection, edit flag, page, page count, list length and every field's id |
| `PdfViewer.UpdateUnknownId` | src/components/PDFViewer.tsx:134-139 | an update for an id no field carries leaves the list unchanged |
| `PdfViewer.RetypeReadBack` | src/components/PDFViewer.tsx:133-140 | after retyping an existing id, looking the field up yields the old field with only its kind replaced |
| `PdfViewer.DeleteField` | src/components/PDFViewer.tsx:142-146 | no field with the id remains, every other field is kept, nothing new appears, and the selection and edit flag are cleared unconditionally |
| `PdfViewer.RemoveFieldsAppend` | src/components/PDFViewer.tsx:143 | removal distributes over concatenation, so surviving fields keep their relative order |
| `PdfViewer.RemoveUnknownId` | src/components/PDFViewer.tsx:143 | deleting an id no field carries leaves the list unchanged |
| `PdfViewer.ChangePage` | src/components/PDFViewer.tsx:177-181 | the page becomes the requested one iff 1 <= page <= numPages; otherwise the state is unchanged |
| `PdfViewer.PageBoundaries` | src/components/PDFViewer.tsx:262-279 | "Previous" on page 1 and "Next" on the last page are no-ops. A page in range stays in range for any request |
| `PdfViewer.DocumentLoaded` | src/components/PDFViewer.tsx:91-94 | the document's page count replaces numPages; page, fields, selection and edit flag are kept |
| `PdfViewer.LoadFields` | src/components/PDFViewer.tsx:38-50 | a successful select replaces the field list with the returned rows; a null result gives the empty list; a failure leaves the state unchanged. The selection, edit flag, page and page count are always kept |
| `PdfViewer.SaveLoadRoundTrip` | src/components/PDFViewer.tsx:148-167 | a save whose delete and insert both succeed, followed by a load, yields exactly the editor's fields in order |
| `PdfViewer.SavePartialFailureLosesRows` | src/components/PDFViewer.tsx:151-167 | when the delete succeeds and the insert fails, the save reports failure and the template has no rows |
| `PdfViewer.DeleteThenSaveNoResurrect` | src/components/PDFViewer.tsx:142-167 | after deleting an id, a save whose delete succeeds leaves no row of the template carrying that id |
| `PdfViewer.FirstCapture` | src/components/PDFViewer.tsx:64 | finds the leftmost index where `pdf-templates/` is followed by a non-empty rest without line terminators; None iff there is no such index |
| `PdfViewer.ExtractFilePath` | src/components/PDFViewer.tsx:53-68 | an empty URL is a missing-URL error. The result is an invalid-URL error iff no position matches the pattern. Otherwise it is the non-empty, terminator-free text after the marker at the leftmost matching position |
| `PdfViewer.ExtractFilePathPlain` | src/components/PDFViewer.tsx:64-68 | without line terminators, the path is the text after the first occurrence of `pdf-templates/`. It is an error when the marker is absent or nothing follows it |
| `FieldStore.SaveFields` | src/components/PDFViewer.tsx:148-175 | a rejected delete leaves the table unchanged. If both requests succeed, the template's rows are exactly the fields in order. A rejected insert after the delete leaves the template with no rows. Other templates' rows are never affected |
| `FieldStore.SelectDelete` | src/components/PDFViewer.tsx:152-155 | deleting a template's rows empties its selection and keeps every other template's selection |
| `FieldStore.SelectTag` | src/components/PDFViewer.tsx:160-165 | the inserted rows, tagged with the template id, select back as exactly the fields for that template and as nothing for any other |
| `FieldStore.DeleteTemplate` | src/components/PDFViewer.tsx:152-155 | no row of the template survives the delete, every row of another template survives, and no row is invented |
| `FieldStore.SelectFieldsMembers` | src/components/PDFViewer.tsx:40-43 | a field is selected for a template iff the table holds a row pairing that field with that template |
| `FieldStore.SelectNoRows` | src/components/PDFViewer.tsx:40-46 | a template with no stored rows selects as the empty sequence |
| `FieldStore.FetchFields` | src/components/PDFViewer.tsx:40-46 | a select against the table always returns rows, namely the template's stored fields in table order, and the empty list (not an error) when the template has none |
| `Types.ParseKind` | src/types/index.ts:21 | a stored kind parses to a kind k iff it is exactly k's name, "editable" or "prefilled" |
| `Types.ParseRole` | src/types/index.ts:4 | a stored role parses to a role r iff it is exactly r's name, "admin" or "employee" |
| `Strings.FindFirst` | src/components/PDFViewer.tsx:64 | returns a position iff the pattern occurs, and the position returned is the leftmost occurrence |
| `Strings.ReplaceFirst` | src/components/PDFTemplateUpload.tsx:31 | string `replace` changes only the leftmost occurrence; when the pattern does not occur the string is unchanged |
| `Strings.AfterLast` | src/components/PDFTemplateUpload.tsx:54 | the last piece of `split` is a suffix with no separator, preceded by a separator when the string has one, and the whole string otherwise |
| `Strings.NatToDecimal` | src/components/FormGenerator.tsx:131 | a number renders as a non-empty string of digits with no leading zero |
| `Strings.DecimalRoundTrip` | src/components/FormGenerator.tsx:131 | reading the rendered digits back gives the number |
| `Strings.IntToDecimal` | src/components/FormGenerator.tsx:131 | an integer renders as its digits, with a leading "-" when negative, and reads back to itself |
| `Strings.IntToDecimalInjective` | src/components/FormGenerator.tsx:131 | distinct question ids get distinct "Question <id>" labels |
| `FormGenerator.MaxId` | src/components/FormGenerator.tsx:130 | the result bounds every id and is one of them |
| `FormGenerator.NextQuestionId` | src/components/FormGenerator.tsx:130 | the new id is greater than every existing id. It is 1 for an empty list, and otherwise one more than an existing id |
| `FormGenerator.AddQuestion` | src/components/FormGenerator.tsx:129-132 | exactly one question is appended after the unchanged list. Its id exceeds all others, its text is "Question <id>", and ids stay distinct |
| `FormGenerator.RenameQuestion` | src/components/FormGenerator.tsx:134-136 | only the text of questions with the id changes; ids, order and length are kept |
| `FormGenerator.RemoveQuestion` | src/components/FormGenerator.tsx:138-140 | no question with the id remains and every other question is kept |
| `FormGenerator.RemoveQuestionAppend` | src/components/FormGenerator.tsx:139 | removal distributes over concatenation, so the remaining questions keep their order |
| `FormGenerator.SetAnswer` | src/components/FormGenerator.tsx:60-65 | the answer is recorded under the question id and every other answer is kept |
| `FormGenerator.AnswerText` | src/components/FormGenerator.tsx:114 | a present, non-empty answer is printed as is; a missing or empty one prints as "N/A" |
| `FormGenerator.GenerateReport` | src/components/FormGenerator.tsx:102-123 | no document without a user id, an absent or empty one (the "User ID not found" error instead); with a user id the result is always a document. Otherwise a 600x400 page with one line per question in list order: the i-th reads "<text>: <answer>" at x 50, y 350 - 20 i, size 12 |
| `FormGenerator.StaleAnswerReused` | src/components/FormGenerator.tsx:129-140 | removing question 2 and adding one reuses id 2. Since removal keeps the answer, the new question's report line shows the old answer |
| `FormGenerator.IsAdminRole` | src/components/FormGenerator.tsx:52 | admin iff the profile role is exactly the admin role name |
| `FormGenerator.AdminExactlyAdminRole` | src/components/FormGenerator.tsx:52 | of the two roles, only the admin role grants admin status |
| `FormGenerator.CheckAdminStatus` | src/components/FormGenerator.tsx:34-58 | without a user id or on an error result the flag is kept; an exception clears it; it can only become set through a profile whose role is "admin". For a signed-in user a returned profile sets the flag to exactly "the role is admin", so a non-admin profile also clears it |
| `FormGenerator.SettingsVisible` | src/components/FormGenerator.tsx:160 | the settings panel shows iff the user is admin and the panel is toggled on |
| `FormGenerator.SettingsPanelNeedsAdmin` | src/components/FormGenerator.tsx:142-160 | for a user who was not admin, the settings panel is on screen after the admin check, with the panel flag toggled or not, only when a signed-in user's profile lookup returned the role "admin" |
| `OffDutyReport.EmptyFormIsEmpty` | src/components/OffDutyReportForm.tsx:9-24 | every entry of the initial form is the empty string |
| `OffDutyReport.HandleChange` | src/components/OffDutyReportForm.tsx:40-43 | a change sets the named entry and leaves every other entry unchanged |
| `OffDutyReport.TextAssignments` | src/components/OffDutyReportForm.tsx:101-113 | exactly thirteen assignments, each copying one entry into that entry's fixed PDF field |
| `OffDutyReport.TextAssignmentsCover` | src/components/OffDutyReportForm.tsx:101-113 | every entry but the shift is written, the shift is not, and no PDF field is written twice |
| `OffDutyReport.ShiftNotInText` | src/components/OffDutyReportForm.tsx:101-119 | changing the shift does not change any text assignment |
| `OffDutyReport.CheckedBoxes` | src/components/OffDutyReportForm.tsx:115-119 | at most one box is ticked. "Check Box7" iff the shift is "1-4 Hours", and "Check Box8" iff it is "More than 4 hours"; any other shift ticks none |
| `OffDutyReport.SignatureDraw` | src/components/OffDutyReportForm.tsx:122-147 | the signature is drawn iff a non-empty one was captured, always on the first page at (370, 60), 160x50 |
| `OffDutyReport.FillReport` | src/components/OffDutyReportForm.tsx:92-147 | a filled report writes thirteen text fields, the i-th copying the i-th text entry into that entry's PDF field. It ticks "Check Box7" iff the shift is "1-4 Hours", "Check Box8" iff it is "More than 4 hours", and nothing for another shift. It draws a signature image iff one was captured, on the first page at (370, 60), 160x50 |
| `OffDutyReport.ClearSignature` | src/components/OffDutyReportForm.tsx:45-48 | clearing resets the captured signature to none, so no signature is drawn, and keeps the form |
| `OffDutyReport.SaveSignature` | src/components/OffDutyReportForm.tsx:50-55 | saving captures the pad's image only when the pad exists |
| `TemplateUpload.DefaultName` | src/components/PDFTemplateUpload.tsx:31 | without ".pdf" the name is the file name. Otherwise it is four characters shorter, and re-inserting ".pdf" at the first occurrence gives back the file name |
| `TemplateUpload.DefaultNameExamples` | src/components/PDFTemplateUpload.tsx:41 | "a.pdf.pdf" gives "a.pdf" and "A.PDF" is unchanged |
| `TemplateUpload.AcceptFile` | src/components/PDFTemplateUpload.tsx:28-34 | accepted iff the file exists and its type is "application/pdf"; otherwise an error and the form is unchanged. A non-empty name is never overwritten; an empty one gets the default name |
| `TemplateUpload.Drop` | src/components/PDFTemplateUpload.tsx:24-35 | a drop always clears the drag flag and accepts the first file iff it is a PDF. An accepted file becomes the chosen file, and the name becomes its default name when the name was empty and is kept otherwise. A rejected drop changes nothing else |
| `TemplateUpload.FileChange` | src/components/PDFTemplateUpload.tsx:37-45 | choosing a file accepts the first one iff it is a PDF, otherwise leaves the form unchanged. An accepted file becomes the chosen file, and the name becomes its default name when the name was empty and is kept otherwise |
| `TemplateUpload.DragOver` | src/components/PDFTemplateUpload.tsx:14-17 | dragover sets the drag flag and nothing else |
| `TemplateUpload.DragLeave` | src/components/PDFTemplateUpload.tsx:19-22 | dragleave clears the drag flag and nothing else |
| `TemplateUpload.DraggingTracksLastEvent` | src/components/PDFTemplateUpload.tsx:14-27 | after any run of dragover, dragleave and drop events the drag flag is set iff the last event was a dragover |
| `TemplateUpload.RemoveFile` | src/components/PDFTemplateUpload.tsx:123-125 | removing the file clears it and keeps the name |
| `TemplateUpload.SetName` | src/components/PDFTemplateUpload.tsx:99 | typing replaces the name and keeps the file and the drag flag |
| `TemplateUpload.Extension` | src/components/PDFTemplateUpload.tsx:54 | the extension is the text after the last ".", or the whole name when it has none |
| `TemplateUpload.StorageObjectName` | src/components/PDFTemplateUpload.tsx:47-55 | submitting proceeds iff a file is chosen and the name is non-empty; the object is then named "<random>.<extension>" |
| `Routes.MatchRoute` | src/App.tsx:28-161 | only "/" matches the root route. Each static path matches its own page: "/dashboard" the dashboard home, "/vehicle-form" the vehicle form, "/templates" the template list, "/templates/new" the upload page, "/users" the user list, "/users/new" the creation form and "/form-generator" the form generator. One non-empty segment under "/templates/" or "/users/", other than "new", matches the template details or the user edit form. Conversely a path matches some route only if it is "/", one of the seven static paths, or one such segment, and each page is matched only by its own path or segment, so an undeclared path such as "/templates/new/x" matches nothing |
| `Routes.Resolve` | src/App.tsx:29-160 | a redirect goes to "/dashboard" iff there is a session, and to "/" iff there is none. The sign-in form renders only at "/" without a session. Every other page renders, inside the layout, only with a session |
| `Routes.RootRoute` | src/App.tsx:29-38 | "/" renders the sign-in form iff there is no session, and redirects to "/dashboard" otherwise |
| `Routes.GuardedRoutes` | src/App.tsx:39-160 | each of the nine other declared paths renders its page in the layout iff there is a session, and otherwise redirects to "/" |
| `Routes.RedirectsSettle` | src/App.tsx:29-160 | every redirect lands on a route that renders, so the guards cannot loop |
| `Routes.UserAndTemplatePages` | src/App.tsx:98-147 | "/users/new" and "/users/<id>" both render the user form, and "/templates/<id>" renders the template details |
| `Routes.SessionAfter` | src/App.tsx:16-22 | each auth-state-change event replaces the session, so the session is the last event's value, or the initial one when there were none |

## Left out

- Backend calls are not modelled. This covers table select, insert, delete and
  update, storage upload, public and signed URLs (including the one-hour
  expiry), sign-up and sign-out. Only their replies enter, as parameters. The
  field table is an in-memory sequence of rows, with no timing or retry.
- The store's select has no declared order. It is modelled as the table's own
  row order.
- A bulk insert is modelled as storing all of its rows or none.
- PDF rendering, the pdf.js worker, pdf-lib document operations and file-saver
  are not modelled. These include loading, embedding, drawing and saving.
  Only the lists of assignments and draw commands they receive are modelled.
  Failures inside them are not modelled, such as a missing named field in the
  fillable PDF or a failed fetch.
- The report uploads in `FormGenerator.tsx:67-100` and
  `OffDutyReportForm.tsx:57-90` are left out. They are storage and table calls,
  with names derived from `Date.now()`.
- Random values are not modelled: field ids and upload stems are parameters.
- DOM geometry is left out. Click coordinates are integers relative to the
  container.
- The null check on the container reference is not modelled. The click
  handler is attached to that container, so the container exists whenever the
  handler runs.
- Async behaviour is left out: the `isUploading` busy flags, overlapping
  loads and stale React closures.
- The signature canvas, toasts, console logging, CSS and the dashboard sidebar
  are left out.
- `UserForm.tsx`, `UserList.tsx`, `PDFTemplateList.tsx` and
  `PDFTemplateDetails.tsx` are left out. They are thin wrappers over the
  external store.
- Route matching covers only this table, with normalised paths. React Router's
  general ranking is left out, as are case-insensitive matching and trailing
  slashes.
- The initial session is a parameter of `Routes.SessionAfter`. The source's
  initial value is a pending request, which is always truthy.
- `OffDutyReport.HandleChange` takes one of the fourteen entry keys. Every
  input and the shift select carry exactly those names, so no other key can
  reach the handler.
- `PdfViewer.UpdateField` models the untyped key/value update as two edits,
  rename and retype. The edit panel only passes those two keys. The text of a
  `<select>` value is covered by `Types.ParseKind`.
- PdfViewer.UpdateField: states only what an edit keeps. What it changes is
  stated pointwise by `PdfViewer.UpdateFields`.
