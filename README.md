# Sdecky presentation site: verified model of its logic

Sdecky is a Next.js site, backed by Supabase, where visitors browse and
preview slide decks, join a waitlist and ask for custom presentations.
Admins upload, edit and delete decks and read the sign-ups. This project
models the parts of the code that hold logic:

- storage keys, uploads, deletions, URL parsing and file validation (`lib/storage.ts`);
- the admin allow-list (`lib/admin.ts`);
- the preview dialog's page loader and navigation;
- the admin upload form, the thumbnail picker, and the edit and delete dialogs;
- the waitlist and custom-request tables;
- the public waitlist, custom-request and password forms.

Every call to Supabase (storage, database, auth), to PDF.js, to the canvas
and to the clock is replaced by a parameter holding its outcome. The one
exception is the storage client's `getPublicUrl`, which is modelled as the
concatenation `Storage.PublicUrl` without its percent-encoding. That is
usually an optional error message or a small outcome datatype. A form
controller is a `class` whose fields are the component's state. Each
handler is a method with `modifies this`. Calls to the outside world
(callbacks, database writes, storage removals, timers) are returned as a
sequence of effects, in the order the handler makes them. The pure logic
is written as functions. Lemmas relate those functions to each other, and
each handler's `ensures` ties the new state to them.

One module per source file:

| file | module | source |
|---|---|---|
| text.dfy | `Text` | helpers: JavaScript `trim`, `toLowerCase`, `split`, `join`, `indexOf`, `includes`, number printing |
| seqs.dfy | `Seqs` | helpers: `filter`, `map`, subsequences |
| storage.dfy | `Storage` | lib/storage.ts |
| admin.dfy | `Admin` | lib/admin.ts |
| preview.dfy | `Preview` | components/presentation-preview-dialog.tsx |
| upload_form.dfy | `UploadForm` | components/admin/presentation-upload-form.tsx |
| delete_dialog.dfy | `DeleteDialog` | components/admin/delete-confirmation-dialog.tsx |
| thumbnail_upload.dfy | `ThumbnailUpload` | components/admin/thumbnail-upload.tsx |
| waitlist_table.dfy | `WaitlistTable` | components/admin/waitlist-table.tsx |
| custom_requests_table.dfy | `CustomRequestsTable` | components/admin/custom-requests-table.tsx |
| edit_dialog.dfy | `EditDialog` | components/admin/edit-presentation-dialog.tsx |
| waitlist_form.dfy | `WaitlistForm` | components/waitlist-form.tsx |
| waitlist_page.dfy | `WaitlistPage` | app/waitlist/page.tsx |
| custom_request_form.dfy | `CustomRequestForm` | components/custom-request-form.tsx |
| update_password_form.dfy | `UpdatePasswordForm` | components/update-password-form.tsx |

The preview dialog is modelled as written, including two behaviours the
code has that a user would likely not expect. Both are proved as concrete
scenarios:

- `Preview.StaleIndexAfterReopen`: starting a load does not reset the page
  index. After a re-open whose page 1 cannot be drawn, the footer can read
  `Page 3 of 1`.
- `Preview.LoadingStuckWithoutFirstPage`: only page 1, or an error, ends
  loading. A document whose first page has no 2D context keeps the loading
  view up, even though later pages are in the list.

## Model

| member | source | states |
|---|---|---|
| Storage.SanitizeChars | lib/storage.ts:18 | the sanitised name has one character per UTF-16 code unit of the name, each in `[A-Za-z0-9._-]` |
| Storage.SanitizeAt | lib/storage.ts:18 | each character is replaced in place: an allowed one (`[A-Za-z0-9.-]`) is kept, any other becomes `_`, or `__` for a character above U+FFFF, since the pattern has no `u` flag and matches each half of a surrogate pair |
| Storage.SanitizeBmp | lib/storage.ts:18 | for names without characters above U+FFFF: same length, allowed characters in place, every other one `_` |
| Storage.SanitizeAstral | lib/storage.ts:18 | an emoji becomes two `_`: `😀.pdf` sanitises to `__.pdf` |
| Storage.SanitizeSafe | lib/storage.ts:18 | the output alphabet is `[A-Za-z0-9._-]`, no `/` can appear, and sanitising twice equals sanitising once |
| Storage.SanitizeFixesSafeNames | lib/storage.ts:18 | a name already in the output alphabet `[A-Za-z0-9._-]` is returned unchanged |
| Storage.PdfKeyShape | lib/storage.ts:17-20 | the PDF key starts with `pdfs/`, holds exactly one `/`, and ends with `-` and the sanitised file name |
| Storage.LastSeparatorEnd | lib/storage.ts:61 | the position just after the last `.` of the name, or 0 when there is none: a `.` precedes it and none follows it |
| Storage.AfterLast | lib/storage.ts:61 | `name.split('.').pop()`: the text from that position on, which holds no `.` |
| Storage.AfterLastIsLastPiece | lib/storage.ts:61 | that suffix is exactly the last element of `split('.')` |
| Storage.ThumbnailExtension | lib/storage.ts:60-62 | `png` for a Blob; for a File, the last `.`-segment of its name, or `png` when that segment is empty; never empty and never holds a `.` |
| Storage.StripExtensionRemovesSuffix | lib/storage.ts:64 | `replace(/\.[^/.]+$/, '')` removes a final `.ext` with non-empty `ext` free of `.` and `/`; when nothing is removed, no such suffix exists |
| Storage.ThumbnailBaseNameSafe | lib/storage.ts:63-65 | the base name (`thumbnail`, or the sanitised original name without its extension) is in the sanitised alphabet and holds no `/` |
| Storage.ThumbnailKeyShape | lib/storage.ts:66-67 | the thumbnail key's only `/` are the folder's and those of the file's extension; a Blob's key holds exactly one |
| Storage.PdfKeyNeedsNoEncoding | lib/storage.ts:17-20 | every character of a PDF key is one `encodeURI` leaves unchanged, so the store's encoded public URL is the plain concatenation |
| Storage.ThumbnailKeyMayNeedEncoding | lib/storage.ts:61-67 | the unsanitised extension can put a character into a thumbnail key that `encodeURI` changes (a space, for a file named `a.j g`) |
| Storage.GetStoragePathFromUrl | lib/storage.ts:152-161 | null exactly when the bucket's `/storage/v1/object/public/{bucket}/` marker does not occur; otherwise the text after its first occurrence |
| Storage.PathFromPublicUrl | lib/storage.ts:152-161 | round trip: a public URL gives back the path it was built from, when the marker does not occur earlier in it |
| Storage.BaseWithoutStorageSegment | lib/storage.ts:154-155 | a base URL with no `/storage` in it never holds an earlier marker occurrence |
| Storage.PathRoundTripForProject | lib/storage.ts:152-161 | for such a base, URL to path gives the path back |
| Storage.UploadPdf | lib/storage.ts:10-43 | an upload error becomes `Failed to upload PDF: …` with no result; otherwise the stored path is the PDF key and the URL is its public URL, from which the path is recovered |
| Storage.UploadThumbnail | lib/storage.ts:52-90 | an upload error becomes `Failed to upload thumbnail: …`; otherwise the stored path is the thumbnail key and the URL is its public URL |
| Storage.DeleteFile | lib/storage.ts:99-109 | fails exactly when the store reports an error, with `Failed to delete file from {bucket}: …` |
| Storage.DeleteErrors | lib/storage.ts:121-137 | one entry per failed removal and no more, so none exactly when no attempted removal failed; a PDF error comes first, prefixed `PDF: `, and a thumbnail error last, prefixed `Thumbnail: ` |
| Storage.DeletePresentationFiles | lib/storage.ts:117-142 | always removes the PDF; removes the thumbnail exactly when its path is non-empty, whatever the PDF outcome; fails iff a removal failed, with the errors joined by `, ` |
| Storage.ValidatePdfFile | lib/storage.ts:174-186 | valid iff the type is `application/pdf` and the size is at most 52428800; type is checked first; a valid result carries no error |
| Storage.ValidateThumbnailFile | lib/storage.ts:194-207 | valid iff the type is one of png/jpeg/jpg/webp and the size is at most 5242880; type is checked first; a valid result carries no error |
| Admin.AllowListEntries | lib/admin.ts:19-23 | the allow-list has at most one entry per comma-separated piece; every entry is non-empty, lower-case and comma-free |
| Admin.AllowListMembership | lib/admin.ts:20-25 | an e-mail is listed iff it is non-empty and some piece trims and lower-cases to exactly it |
| Admin.EmptyAllowList | lib/admin.ts:19 | an unset or empty `ADMIN_EMAILS` gives an empty list |
| Admin.IsAdmin | lib/admin.ts:9-30 | false on a claims error, a missing or empty e-mail, or an exception; otherwise the lower-cased e-mail's membership in the list |
| Admin.NobodyIsAdminWithoutList | lib/admin.ts:19-25 | with the variable unset or empty, nobody is an admin |
| Admin.AdminMatchIgnoresCase | lib/admin.ts:22-25 | case and surrounding blanks are ignored on both sides (`a@X` against `b , A@x`) |
| Admin.AdminMatchIsWholeEntry | lib/admin.ts:25 | membership is whole-entry equality, not a substring test (`@x` against `b , A@x`) |
| Admin.RequireAdmin | lib/admin.ts:38-43 | throws `Unauthorized: Admin access required` exactly when `isAdmin` is false |
| Admin.GetCurrentUserEmail | lib/admin.ts:50-64 | the claims e-mail, or null under the same conditions that make `isAdmin` false before the list is read |
| Admin.AdminHasListedEmail | lib/admin.ts:50-64 | an admin always has a current e-mail, and that e-mail is on the list |
| Preview.RenderedNumbersShape | components/presentation-preview-dialog.tsx:50-70 | appended pages are rendered pages of the document, in strictly increasing page order, never more than there are pages |
| Preview.RenderedPagesMatch | components/presentation-preview-dialog.tsx:50-70 | the i-th appended image is the image of the i-th rendered page, and a page without a 2D context is skipped |
| Preview.RenderedIncreasing | components/presentation-preview-dialog.tsx:50-70 | page numbers of appended images strictly increase |
| Preview.StepSnoc | components/presentation-preview-dialog.tsx:50-70 | one more loop step appends that page's image, or nothing when the page has no context |
| Preview.StopAtFailure | components/presentation-preview-dialog.tsx:78-81 | a thrown page error ends the loop: nothing after it is appended |
| Preview.LoadEndsLoading | components/presentation-preview-dialog.tsx:39-42 | loading ends iff the fetch or decode failed, page 1 was appended, or a page failed; a failed fetch leaves no pages |
| Preview.PrevIndex | components/presentation-preview-dialog.tsx:89-91 | `max(0, p-1)`: never negative, one less when possible |
| Preview.NextIndex | components/presentation-preview-dialog.tsx:93-95 | `min(len-1, p+1)`: at most the last index, one more when possible |
| Preview.NavigationInRange | components/presentation-preview-dialog.tsx:89-95 | on a non-empty list Previous and Next keep the index in range, and stay put at the ends |
| Preview.PreviewDialog.constructor | components/presentation-preview-dialog.tsx:21-23 | index 0, no pages, loading |
| Preview.PreviewDialog.StartLoad | components/presentation-preview-dialog.tsx:29-30 | loading on and the list emptied; the index is kept |
| Preview.PreviewDialog.DeliverPage | components/presentation-preview-dialog.tsx:70-76 | the image is appended; page 1 also ends loading and resets the index to 0 |
| Preview.PreviewDialog.Fail | components/presentation-preview-dialog.tsx:78-81 | loading off, pages already appended kept |
| Preview.PreviewDialog.LoadPdf | components/presentation-preview-dialog.tsx:25-85 | nothing when closed or without a URL; otherwise the pages are those the loop appends, loading ends as `LoadEndsLoading` says, and the index is 0 iff page 1 was appended |
| Preview.PreviewDialog.Prev | components/presentation-preview-dialog.tsx:89-91 | the index becomes `PrevIndex` of the old one; pages and loading unchanged |
| Preview.PreviewDialog.Next | components/presentation-preview-dialog.tsx:93-95 | the index becomes `NextIndex` of the old one; pages and loading unchanged |
| Preview.PreviewDialog.Jump | components/presentation-preview-dialog.tsx:169-172 | a thumbnail click sets the index to that thumbnail |
| Preview.PreviewDialog.Main | components/presentation-preview-dialog.tsx:122-161 | loading message iff loading; failure message iff not loading with no pages; otherwise the current page, arrows iff more than one page, disabled at index 0 and at the last index |
| Preview.PreviewDialog.Thumbnails | components/presentation-preview-dialog.tsx:165-189 | the strip shows iff not loading with pages; one entry per page, highlighted iff it is the current one |
| Preview.PreviewDialog.PageLabel | components/presentation-preview-dialog.tsx:194-198 | the `Page p+1 of len` label shows iff not loading with pages |
| Preview.ShownPageIsReal | components/presentation-preview-dialog.tsx:122-189 | after page 1 of the current load the view shows a real page, with exactly one thumbnail highlighted |
| Preview.BrowseAfterLoad | components/presentation-preview-dialog.tsx:89-172 | after a load that appended page 1, any sequence of Previous and Next clicks (arrows drawn for more than one page) and thumbnail clicks (one per page) keeps the index on a page |
| Preview.StaleIndexAfterReopen | components/presentation-preview-dialog.tsx:29-30 | as written, the index survives a re-open: the footer can read `Page 3 of 1` with no image on show |
| Preview.LoadingStuckWithoutFirstPage | components/presentation-preview-dialog.tsx:73-76 | as written, a document whose page 1 has no context keeps the loading view although a page was appended |
| UploadForm.SubmitCheck | components/admin/presentation-upload-form.tsx:52-65 | checks in order: a PDF, then a non-blank title, then a thumbnail unless auto-extract is on; each has its own message, and all pass iff the three conditions hold |
| UploadForm.EnabledSubmitPassesFirstChecks | components/admin/presentation-upload-form.tsx:257 | with the button enabled only the thumbnail check can fail, and none can in auto-extract mode |
| UploadForm.ProgressLabels | components/admin/presentation-upload-form.tsx:227-231 | the label mapping: every progress value up to 100 maps to exactly one label |
| UploadForm.ProgressLabelsOfSubmit | components/admin/presentation-upload-form.tsx:227-231 | the mapping gives `Complete!` exactly at 100, and each value a submit sets before it (10, 30, 50, 70) its own label |
| UploadForm.ProgressView | components/admin/presentation-upload-form.tsx:223-233 | nothing is drawn unless uploading; while uploading, one label for any value up to 100 |
| UploadForm.LabelsDrawnDuringSubmit | components/admin/presentation-upload-form.tsx:67-131 | of a submit's progress values, only those held across an `await` are drawn: `Processing PDF...` during the PDF upload, then `Uploading thumbnail...` and `Saving to database...` as far as the submit gets; `Uploading PDF...` and `Complete!` are never drawn |
| UploadForm.PipelineError | components/admin/presentation-upload-form.tsx:70-131 | the message of the first failing step (PDF upload, generation, thumbnail upload, insert as `Database error: …`); none iff every step succeeds |
| UploadForm.ThumbnailSource | components/admin/presentation-upload-form.tsx:79-88 | auto mode uploads the generated Blob named after the PDF; manual mode uploads the chosen file with no original name |
| UploadForm.Record | components/admin/presentation-upload-form.tsx:94-103 | the row holds the trimmed title, the trimmed description or null, both upload results, the PDF size and the language |
| UploadForm.UploadCalls | components/admin/presentation-upload-form.tsx:73-85 | the PDF upload comes first and the thumbnail upload last, with generation between them in auto mode |
| UploadForm.CallsMade | components/admin/presentation-upload-form.tsx:70-107 | a submit stops at the first failing call; all calls are made iff both uploads succeed |
| UploadForm.CallOrder | components/admin/presentation-upload-form.tsx:73-94 | the PDF upload is first and the insert last and only once; all calls are made iff the uploads succeeded; a thumbnail upload happens only after a successful PDF upload |
| UploadForm.ReachedProgressRises | components/admin/presentation-upload-form.tsx:68-90 | the progress reached before a failure is a rising prefix of 10, 30, 50, 70, 100 |
| UploadForm.UploadFiles | components/admin/presentation-upload-form.tsx:67-90 | stores both files iff both uploads succeed, at their keys; otherwise the first failure's message, the calls up to it and the progress reached |
| UploadForm.ThumbnailStage | components/admin/presentation-upload-form.tsx:79-90 | generation (auto mode) then upload of the thumbnail; fails with the first failure's message |
| UploadForm.InsertRow | components/admin/presentation-upload-form.tsx:94-107 | the row built from the fields and both upload results; the database's refusal as `Database error: …` |
| UploadForm.UploadFailureOutcome | components/admin/presentation-upload-form.tsx:125-128 | an upload failure ends with no row, the calls up to the failing one, and progress back to 0 |
| UploadForm.InsertSucceeded | components/admin/presentation-upload-form.tsx:93-110 | with both uploads and the insert successful, every planned call is made, progress ends at 100 and the row built from the fields and both upload results is inserted |
| UploadForm.InsertRefused | components/admin/presentation-upload-form.tsx:94-128 | with both uploads done and the insert refused, every planned call is made, no row results, the message is `Database error: …` and progress falls from 70 to 0 |
| UploadForm.InsertStage | components/admin/presentation-upload-form.tsx:94-128 | the insert after both uploads: the outcome `SubmitOutcome` prescribes |
| UploadForm.RunPipeline | components/admin/presentation-upload-form.tsx:70-131 | the `try`: error, calls, progress trace and inserted row are those `SubmitOutcome` prescribes |
| UploadForm.PresentationUploadForm.constructor | components/admin/presentation-upload-form.tsx:20-29 | the default fields (no files, auto-extract on, language `en`), not uploading, progress 0 |
| UploadForm.PresentationUploadForm.SelectPdf | components/admin/presentation-upload-form.tsx:31-44 | no file changes nothing; an invalid file sets the validator's error and clears the PDF; a valid one clears the error and is stored |
| UploadForm.PresentationUploadForm.Publish | components/admin/presentation-upload-form.tsx:67-131 | after passing checks: the pipeline's outcome; on success the success flag, progress 100 and every field reset; on failure progress 0 and the fields kept; never left uploading, so the progress block is gone |
| UploadForm.PresentationUploadForm.Conclude | components/admin/presentation-upload-form.tsx:109-131 | sets the error; on success progress 100, success and the field reset; on failure progress 0; uploading off |
| UploadForm.PresentationUploadForm.Submit | components/admin/presentation-upload-form.tsx:46-132 | a failed check shows its message before any call or progress change; otherwise the submit publishes as `Publish` states |
| DeleteDialog.PairRemovals | components/admin/delete-confirmation-dialog.tsx:64-67 | the removals the pair deletion attempts: the PDF, and the thumbnail exactly when its (possibly null) path is non-empty |
| DeleteDialog.DeleteError | components/admin/delete-confirmation-dialog.tsx:58-60 | the dialog's error is `Database error: …` exactly when the row delete fails |
| DeleteDialog.DeleteOrder | components/admin/delete-confirmation-dialog.tsx:52-79 | the row delete comes first and only once; a database error stops there with no storage call and no callbacks; otherwise the removals, then `onSuccess`, then close |
| DeleteDialog.RunDelete | components/admin/delete-confirmation-dialog.tsx:50-79 | the `try` performs exactly `DeleteEffects` and fails exactly as `DeleteError` says |
| DeleteDialog.DeleteConfirmationDialog.HandleDelete | components/admin/delete-confirmation-dialog.tsx:46-82 | the effects of `DeleteEffects`, the error of `DeleteError`, and loading off afterwards |
| DeleteDialog.DeleteConfirmationDialog.HandleOpenChange | components/admin/delete-confirmation-dialog.tsx:84-91 | ignored while loading; otherwise passes the request on, and closing clears the error |
| DeleteDialog.DeleteConfirmationDialog.DeleteButtonLabel | components/admin/delete-confirmation-dialog.tsx:134-141 | the button reads `Deleting...` exactly while loading |
| ThumbnailUpload.SelectionError | components/admin/thumbnail-upload.tsx:33-37 | no error exactly for an allowed type of at most 5 MB; otherwise the validator's message |
| ThumbnailUpload.ThumbnailPicker.HandleFileSelect | components/admin/thumbnail-upload.tsx:28-48 | the input holds the selection; no file changes nothing else; an invalid file sets the error, keeps the preview and tells the parent nothing; a valid one clears the error, goes to the parent, and starts the preview read |
| ThumbnailUpload.ThumbnailPicker.PreviewRead | components/admin/thumbnail-upload.tsx:44-46 | the read data URL becomes the preview |
| ThumbnailUpload.ThumbnailPicker.HandleRemove | components/admin/thumbnail-upload.tsx:50-57 | preview and error cleared, the parent told `null`, the file input emptied |
| ThumbnailUpload.ThumbnailPicker.HandleAutoExtractChange | components/admin/thumbnail-upload.tsx:59-65 | the flag goes to the parent; turning it on also removes the manual thumbnail; turning it off changes nothing else |
| ThumbnailUpload.AutoExtractClearsChoice | components/admin/thumbnail-upload.tsx:59-65 | after choosing a file and switching auto-extract on, no preview remains, the input is empty and the parent's last word is "no thumbnail" |
| WaitlistTable.FilteredEntries | components/admin/waitlist-table.tsx:29-31 | an entry is kept iff its lower-cased e-mail contains the lower-cased term; the result is an order-preserving subsequence, never longer, holding each kept entry as often as the input does |
| WaitlistTable.EmptySearchKeepsAll | components/admin/waitlist-table.tsx:29-31 | an empty search keeps every entry |
| WaitlistTable.CsvLines | components/admin/waitlist-table.tsx:43-52 | the CSV read line by line is `Email,Date Joined` then `email,date` for each filtered entry in order, with no trailing line: filtered count + 1 lines, for e-mails and dates without line breaks |
| WaitlistTable.EmptyState | components/admin/waitlist-table.tsx:93-98 | shown iff nothing matches; its text depends only on whether a search term was entered |
| WaitlistTable.Summary | components/admin/waitlist-table.tsx:113-117 | `Showing f of t email(s)` shows iff something matches; the noun agrees with the total |
| WaitlistTable.EmptyStateOrSummary | components/admin/waitlist-table.tsx:93-117 | exactly one of the empty state and the summary shows, and f ≤ t |
| CustomRequestsTable.FilteredRequests | components/admin/custom-requests-table.tsx:38-43 | a request is kept iff the lower-cased term occurs in its e-mail, topic or non-empty name, as often as it occurs in the input; order is preserved |
| CustomRequestsTable.EmptySearchKeepsAll | components/admin/custom-requests-table.tsx:38-43 | an empty search keeps every request |
| CustomRequestsTable.NameMatchNeedsName | components/admin/custom-requests-table.tsx:38-43 | a request matched by neither e-mail nor topic has a non-empty name |
| CustomRequestsTable.StatusVariant | components/admin/custom-requests-table.tsx:45-58 | pending ↦ secondary, rejected ↦ destructive, completed ↦ outline (each an iff), reviewing and accepted ↦ default |
| CustomRequestsTable.UnknownStatusIsDefault | components/admin/custom-requests-table.tsx:45-58 | any other status gets the default badge |
| CustomRequestsTable.CountLabel | components/admin/custom-requests-table.tsx:82 | `n request`, with `s` exactly when n ≠ 1 |
| CustomRequestsTable.CountLabelNoun | components/admin/custom-requests-table.tsx:82 | the label ends in `s` iff the count is not 1 |
| CustomRequestsTable.Body | components/admin/custom-requests-table.tsx:101-108 | a single `No custom requests found` row iff nothing matches; otherwise one row per filtered request |
| CustomRequestsTable.DisplayName | components/admin/custom-requests-table.tsx:111 | the name, or `—` when missing or empty |
| CustomRequestsTable.Selection.View | components/admin/custom-requests-table.tsx:126 | View selects that request |
| CustomRequestsTable.Selection.Close | components/admin/custom-requests-table.tsx:143-155 | the backdrop and ✕ clear the selection, closing the panel |
| CustomRequestsTable.Selection.PanelClick | components/admin/custom-requests-table.tsx:147 | a click inside the panel changes nothing |
| CustomRequestsTable.Selection.ShownDetails | components/admin/custom-requests-table.tsx:186 | the details section shows iff the details are non-empty |
| EditDialog.InitialFields | components/admin/edit-presentation-dialog.tsx:46-48 | title as given, description or `""`, featured only when set true |
| EditDialog.ChangesOf | components/admin/edit-presentation-dialog.tsx:67-71 | the update sends the trimmed title, the trimmed description or null when blank, and the flag |
| EditDialog.SubmitError | components/admin/edit-presentation-dialog.tsx:54-82 | `Title is required` for a blank title; otherwise the update's error message, or none |
| EditDialog.SubmitOrder | components/admin/edit-presentation-dialog.tsx:56-79 | a blank title sends nothing; otherwise exactly one update of this presentation with a non-empty title, followed by `onSuccess` and close iff it succeeded |
| EditDialog.EditPresentationDialog.constructor | components/admin/edit-presentation-dialog.tsx:46-50 | fields from the presentation, not loading, no error |
| EditDialog.RunUpdate | components/admin/edit-presentation-dialog.tsx:63-83 | the update of a non-blank title: the error and effects `SubmitError` and `SubmitEffects` prescribe |
| EditDialog.EditPresentationDialog.HandleSubmit | components/admin/edit-presentation-dialog.tsx:52-86 | the error of `SubmitError`, the effects of `SubmitEffects`, the fields untouched, loading off once the update ran |
| EditDialog.EditPresentationDialog.HandleOpenChange | components/admin/edit-presentation-dialog.tsx:88-99 | ignored while loading; closing resets the fields to the presentation and clears the error; the request goes to the parent |
| EditDialog.CloseDiscardsEdits | components/admin/edit-presentation-dialog.tsx:88-99 | edits abandoned by closing are gone when the dialog reopens |
| WaitlistForm.RefusalMessage | components/waitlist-form.tsx:30-52 | the message by the first check that applies: `23505`, `PGRST116`, a non-blank message, any code, then the fallback |
| WaitlistForm.RefusalMessageNonEmpty | components/waitlist-form.tsx:30-52 | a refused insert always leaves a non-empty message |
| WaitlistForm.DuplicateWins | components/waitlist-form.tsx:35-37 | code `23505` reads as a duplicate whatever the message |
| WaitlistForm.WaitlistSignup.HandleSubmit | components/waitlist-form.tsx:15-64 | an empty e-mail changes nothing and inserts nothing; otherwise one insert of it, loading off, then success with the e-mail cleared, the refusal's message, or the unexpected-error message |
| WaitlistForm.WaitlistSignup.Feedback | components/waitlist-form.tsx:106-111 | the feedback line shows iff there is a message and the status is not idle |
| WaitlistForm.SuccessLocksForm | components/waitlist-form.tsx:91-95 | after a success the button is disabled, and a further submit inserts nothing |
| WaitlistPage.Classify | app/waitlist/page.tsx:30-45 | success iff the insert went through; the duplicate message iff the code is `23505`; the generic message otherwise |
| WaitlistPage.OtherRefusalIsLikeThrow | app/waitlist/page.tsx:34-45 | a non-duplicate refusal ends exactly like an exception |
| WaitlistPage.FeedbackAlwaysShown | app/waitlist/page.tsx:30-45 | every outcome leaves a non-empty message and a non-idle status |
| WaitlistPage.WaitlistSignup.ButtonLabel | app/waitlist/page.tsx:149-153 | `Joining...` while loading, then `At your service ✓` after a success, else `Join Now` |
| WaitlistPage.WaitlistSignup.HandleSubmit | app/waitlist/page.tsx:20-49 | one insert of the e-mail; status and message as `Classify` says; loading off; only a success clears the e-mail |
| WaitlistPage.SuccessDisablesForm | app/waitlist/page.tsx:142-153 | after a success the input and the button are disabled |
| CustomRequestForm.RecordOf | components/custom-request-form.tsx:38-47 | the row holds the trimmed name or null, the trimmed e-mail and topic, the trimmed details or null, the language and the terms flag |
| CustomRequestForm.RecordIsNormal | components/custom-request-form.tsx:38-47 | the row is already normal: submitting its own values again sends the same row |
| CustomRequestForm.SubmitFeedback | components/custom-request-form.tsx:29-68 | the terms message when they were not agreed to; otherwise success iff the insert succeeded, with its message, or the generic error |
| CustomRequestForm.SentRecords | components/custom-request-form.tsx:29-47 | a row is sent iff the terms were agreed to, at most one |
| CustomRequestForm.CustomRequest.HandleSubmit | components/custom-request-form.tsx:23-72 | sends `SentRecords`; status and message as `SubmitFeedback` says; success resets every field (language `en`, terms off); otherwise the fields are kept; loading off |
| CustomRequestForm.SuccessLocks | components/custom-request-form.tsx:53-64 | after a success the form is disabled and the terms box is cleared |
| UpdatePasswordForm.ValidationError | components/update-password-form.tsx:27-35 | a mismatch is reported first, whatever the length; then a length under 6; no error iff the entries match and have at least 6 characters |
| UpdatePasswordForm.FailureMessage | components/update-password-form.tsx:45-62 | the service's own non-empty message, else `Failed to update password`; `An unexpected error occurred` for an exception |
| UpdatePasswordForm.SentPasswordsAreValid | components/update-password-form.tsx:27-57 | a password is sent only once it matches its confirmation and has at least 6 characters; the redirect is scheduled iff validation passed and the update succeeded |
| UpdatePasswordForm.LengthBoundary | components/update-password-form.tsx:32-35 | length 5 is rejected and length 6 accepted |
| UpdatePasswordForm.UpdatePassword.HandleSubmit | components/update-password-form.tsx:22-63 | invalid entries leave their message and touch neither loading nor the service; otherwise one update, then success, or the failure message, with loading off |

## Left out

- Supabase storage, database and auth, PDF.js, the canvas, `fetch` and `Date.now()` are not modelled. They are parameters that carry each call's outcome.
- `lib/pdf-utils.ts` (thumbnail generation) is not part of this model. Its outcome is the `generateError` parameter.
- Console logging, the router (`router.push`, `router.refresh`), the 1.5 s and 2 s timers, and the CSV download through a DOM link are not modelled. The redirect appears only as an effect or is omitted.
- Date formatting (`toISOString`, `toLocaleString`) is not modelled. The CSV's date column is the `isoDate` parameter of `WaitlistTable.CsvContent`. That parameter is total: the `RangeError` that `toISOString` throws for an invalid `created_at` is not modelled, so the model always produces an export.
- Storage.PublicUrl: the percent-encoding (`encodeURI`) the storage client applies to public URLs is not modelled. The round trips of `Storage.PathFromPublicUrl`, `Storage.PathRoundTripForProject` and `Storage.UploadPdf` hold for the real URL only when the path needs no encoding. `Storage.PdfKeyNeedsNoEncoding` proves that for every PDF key. `Storage.ThumbnailKeyMayNeedEncoding` shows a thumbnail key for which it fails.
- UploadForm.ProgressView: whether a label is drawn also depends on React rendering between `await`s. The model approximates this with `Painted`: values set before the first `await` or together with `uploading = false` are never drawn.
- Strings are sequences of Unicode characters. JavaScript counts UTF-16 code units, so `UpdatePasswordForm.ValidationError` measures length in characters. The two agree outside the astral planes. `Storage.Sanitize` does count code units, as the source's pattern does.
- `Text.Lower` and `Text.Trim` cover ASCII case and the ASCII blanks. JavaScript's `toLowerCase` and `trim` also handle non-ASCII letters and Unicode spaces.
- UploadForm.PipelineError: a thrown value that is not an `Error` (message `Failed to upload presentation`) is not modelled. Every failure carries its message.
- UploadForm.PresentationUploadForm.Submit: the `else throw new Error("No thumbnail available")` branch is not modelled. It is unreachable once `SubmitCheck` has passed.
- DeleteDialog.DeleteConfirmationDialog.HandleDelete, EditDialog.EditPresentationDialog.HandleSubmit: the fallback messages for a thrown non-`Error` value are not modelled.
- The intermediate `loading = true` of each handler is not modelled as a separate state. The handlers run to completion in one method call, with the external outcomes given up front. The interleavings of React re-renders with pending promises are not modelled.
- Preview.PreviewDialog.LoadPdf: a load runs to completion with no user input in between. Navigation during a partial load is covered by the separate `Prev`, `Next` and `Jump` methods. Two overlapping loads are not modelled.
- ThumbnailUpload.ThumbnailPicker.HandleFileSelect: the `FileReader` read is asynchronous. It appears as a `ReadPreview` effect whose completion is the separate method `PreviewRead`.
- CustomRequestsTable.StatusVariant: the badge lookup is a plain object keyed by status. Keys inherited from JavaScript's object prototype (such as `toString`) are not modelled.
- The HTML `required` and `type="email"` checks done by the browser are not modelled. Only `WaitlistForm` checks the e-mail itself.
- Pages with no logic of their own (gallery, admin pages, auth pages other than the password form) are not part of this model.
