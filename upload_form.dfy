/** The admin upload form (components/admin/presentation-upload-form.tsx):
    choosing a PDF, and a submit that validates the inputs in a fixed order,
    uploads the PDF, obtains and uploads a thumbnail, inserts the
    presentation row and resets the form. Storage, thumbnail generation, the
    database and the clock are parameters. */
module UploadForm {
  import opened Text
  import opened Storage

  /** The row inserted into `presentations`. */
  datatype PresentationRecord = PresentationRecord(
    title: string,
    description: Option<string>,
    pdfUrl: string,
    thumbnailUrl: string,
    pdfStoragePath: string,
    thumbnailStoragePath: string,
    fileSizeBytes: nat,
    language: string)

  /** The outcomes of the external calls of one submit: the project's base
      URL, the two `Date.now()` readings, and the error (if any) of the PDF
      upload, of thumbnail generation, of the thumbnail upload and of the
      insert. */
  datatype Oracles = Oracles(
    base: string,
    pdfTimestamp: nat,
    thumbnailTimestamp: nat,
    pdfUploadError: Option<string>,
    generateError: Option<string>,
    thumbnailUploadError: Option<string>,
    dbError: Option<string>)

  /** The external calls a submit makes, in order. */
  datatype Call =
    | UploadPdfCall(file: FileInfo)
    | GenerateThumbnailCall(file: FileInfo)
    | UploadThumbnailCall(body: Body, originalFileName: Option<string>)
    | InsertCall(record: PresentationRecord)

  // ------------------------------------------------------------ validation

  /** The checks of `handleSubmit`, in order: a PDF, then a non-blank title,
      then a thumbnail unless auto-extract is on. */
  function SubmitCheck(pdfFile: Option<FileInfo>, title: string, autoExtract: bool,
                       thumbnailFile: Option<FileInfo>): (r: Option<string>)
    ensures r.None? <==> pdfFile.Some? && !IsBlank(title) && (autoExtract || thumbnailFile.Some?)
    ensures pdfFile.None? ==> r == Some("Please select a PDF file")
    ensures pdfFile.Some? && IsBlank(title) ==> r == Some("Please enter a title")
    ensures pdfFile.Some? && !IsBlank(title) && !autoExtract && thumbnailFile.None? ==>
      r == Some("Please upload a thumbnail or enable auto-extract")
  {
    TrimEmptyIffBlank(title);
    if pdfFile.None? then Some("Please select a PDF file")
    else if Trim(title) == "" then Some("Please enter a title")
    else if !autoExtract && thumbnailFile.None? then Some("Please upload a thumbnail or enable auto-extract")
    else None
  }

  /** The submit button's `disabled`: while uploading, without a PDF, or with
      a blank title. */
  predicate SubmitDisabled(uploading: bool, pdfFile: Option<FileInfo>, title: string)
  {
    uploading || pdfFile.None? || Trim(title) == ""
  }

  /** With the button enabled, only the thumbnail check can still fail. */
  lemma EnabledSubmitPassesFirstChecks(uploading: bool, pdfFile: Option<FileInfo>, title: string,
                                       autoExtract: bool, thumbnailFile: Option<FileInfo>)
    requires !SubmitDisabled(uploading, pdfFile, title)
    ensures SubmitCheck(pdfFile, title, autoExtract, thumbnailFile).None? ||
            SubmitCheck(pdfFile, title, autoExtract, thumbnailFile) ==
              Some("Please upload a thumbnail or enable auto-extract")
    ensures autoExtract ==> SubmitCheck(pdfFile, title, autoExtract, thumbnailFile).None?
  {
    TrimEmptyIffBlank(title);
  }

  // -------------------------------------------------------------- progress

  /** The labels under the progress bar (lines 227-231): each range of the
      value has its own text. */
  function ProgressLabels(progress: int): (r: seq<string>)
    ensures |r| == (if progress <= 100 then 1 else 0)
  {
    (if progress < 30 then ["Uploading PDF..."] else [])
    + (if 30 <= progress < 50 then ["Processing PDF..."] else [])
    + (if 50 <= progress < 70 then ["Uploading thumbnail..."] else [])
    + (if 70 <= progress < 100 then ["Saving to database..."] else [])
    + (if progress == 100 then ["Complete!"] else [])
  }

  /** The progress values a successful submit goes through. */
  const SuccessTrace: seq<int> := [10, 30, 50, 70, 100]

  /** The mapping gives `Complete!` exactly at 100, and each value a
      submit sets before 100 its own label. Which of them is ever drawn is
      `LabelsDrawnDuringSubmit`. */
  lemma ProgressLabelsOfSubmit(progress: int)
    ensures ProgressLabels(progress) == ["Complete!"] <==> progress == 100
    ensures ProgressLabels(SuccessTrace[0]) == ["Uploading PDF..."]
    ensures ProgressLabels(SuccessTrace[1]) == ["Processing PDF..."]
    ensures ProgressLabels(SuccessTrace[2]) == ["Uploading thumbnail..."]
    ensures ProgressLabels(SuccessTrace[3]) == ["Saving to database..."]
  {
    if progress != 100 && progress <= 100 {
      var r := ProgressLabels(progress);
      assert r[0] != "Complete!" by {
        if progress < 30 {
          assert r[0] == "Uploading PDF...";
        } else if progress < 50 {
          assert r[0] == "Processing PDF...";
        } else if progress < 70 {
          assert r[0] == "Uploading thumbnail...";
        } else {
          assert r[0] == "Saving to database...";
        }
      }
    }
  }

  /** The progress block: drawn only while uploading, and then with the
      labels of the current value. */
  function ProgressView(uploading: bool, progress: int): (r: seq<string>)
    ensures !uploading ==> r == []
    ensures uploading && progress <= 100 ==> |r| == 1
  {
    if uploading then ProgressLabels(progress) else []
  }

  /** The values of a submit's progress trace the bar holds while a call is
      pending. The first is overwritten before the first `await`, and the
      last is set in the same step as `uploading` goes back to false, so
      neither is ever drawn. */
  function Painted(trace: seq<int>): seq<int>
    requires |trace| >= 2
  {
    trace[1..|trace| - 1]
  }

  /** The labels of the pending calls: the PDF upload, the thumbnail stage
      and the insert. */
  const PendingLabels: seq<string> := ["Processing PDF...", "Uploading thumbnail...", "Saving to database..."]

  /** What a submit draws under the bar: while the PDF uploads the label
      already reads `Processing PDF...`, then `Uploading thumbnail...` and
      `Saving to database...` as far as the submit gets. `Uploading PDF...`
      and `Complete!` are never drawn. */
  lemma LabelsDrawnDuringSubmit(autoExtract: bool, o: Oracles, trace: seq<int>)
    requires trace == SuccessTrace || trace == ReachedProgress(autoExtract, o) + [0]
    ensures 1 <= |Painted(trace)| <= |PendingLabels|
    ensures trace == SuccessTrace ==> |Painted(trace)| == |PendingLabels|
    ensures forall i :: 0 <= i < |Painted(trace)| ==> ProgressView(true, Painted(trace)[i]) == [PendingLabels[i]]
    ensures forall p :: p in Painted(trace) ==>
      ProgressView(true, p) != ["Uploading PDF..."] && ProgressView(true, p) != ["Complete!"]
  {
  }

  // ------------------------------------------------------------ the pipeline

  /** The fields the user edits. */
  datatype Fields = Fields(
    pdfFile: Option<FileInfo>,
    thumbnailFile: Option<FileInfo>,
    autoExtract: bool,
    title: string,
    description: string,
    language: string)

  /** The initial values, and the values a successful submit resets to. */
  const DefaultFields := Fields(None, None, true, "", "", "en")


  /** Both uploads, and the thumbnail generation in auto mode, succeed. */
  predicate UploadsSucceed(autoExtract: bool, o: Oracles)
  {
    o.pdfUploadError.None? && (!autoExtract || o.generateError.None?) && o.thumbnailUploadError.None?
  }

  /** The message a failing submit shows: the first failing step's error. */
  function PipelineError(autoExtract: bool, o: Oracles): (r: Option<string>)
    ensures r.None? <==> UploadsSucceed(autoExtract, o) && o.dbError.None?
    ensures o.pdfUploadError.Some? ==> r == Some("Failed to upload PDF: " + o.pdfUploadError.value)
    ensures UploadsSucceed(autoExtract, o) && o.dbError.Some? ==>
      r == Some("Database error: " + o.dbError.value)
  {
    if o.pdfUploadError.Some? then Some("Failed to upload PDF: " + o.pdfUploadError.value)
    else if autoExtract && o.generateError.Some? then o.generateError
    else if o.thumbnailUploadError.Some? then Some("Failed to upload thumbnail: " + o.thumbnailUploadError.value)
    else if o.dbError.Some? then Some("Database error: " + o.dbError.value)
    else None
  }

  /** The thumbnail to upload: in auto mode the image generated from the PDF,
      named after the PDF; otherwise the chosen file, with no original name. */
  function ThumbnailSource(autoExtract: bool, pdf: FileInfo, thumbnailFile: Option<FileInfo>)
    : (r: (Body, Option<string>))
    requires autoExtract || thumbnailFile.Some?
    ensures autoExtract ==> r == (BlobBody, Some(pdf.name))
    ensures !autoExtract ==> r == (FileBody(thumbnailFile.value.name), None)
  {
    if autoExtract then (BlobBody, Some(pdf.name)) else (FileBody(thumbnailFile.value.name), None)
  }

  /** The row to insert, from the form fields and the two upload results. */
  function Record(title: string, description: string, language: string, pdf: FileInfo,
                  pdfStored: Stored, thumbnailStored: Stored): (r: PresentationRecord)
    ensures r.title == Trim(title) && r.description == TrimOrNull(description)
    ensures r.pdfUrl == pdfStored.publicUrl && r.pdfStoragePath == pdfStored.storagePath
    ensures r.thumbnailUrl == thumbnailStored.publicUrl && r.thumbnailStoragePath == thumbnailStored.storagePath
    ensures r.fileSizeBytes == pdf.size && r.language == language
  {
    PresentationRecord(Trim(title), TrimOrNull(description), pdfStored.publicUrl, thumbnailStored.publicUrl,
                       pdfStored.storagePath, thumbnailStored.storagePath, pdf.size, language)
  }

  /** Where the PDF lands when its upload succeeds. */
  function PdfStored(pdf: FileInfo, o: Oracles): Stored
  {
    Stored(PublicUrl(o.base, PdfBucket, PdfKey(o.pdfTimestamp, pdf.name)), PdfKey(o.pdfTimestamp, pdf.name))
  }

  /** Where the thumbnail lands when its upload succeeds. */
  function ThumbnailStored(source: (Body, Option<string>), o: Oracles): Stored
  {
    var path := ThumbnailKey(o.thumbnailTimestamp, source.0, source.1);
    Stored(PublicUrl(o.base, ThumbnailBucket, path), path)
  }

  /** The calls before the insert, in order: the PDF upload, thumbnail
      generation in auto mode, the thumbnail upload. */
  function UploadCalls(autoExtract: bool, pdf: FileInfo, source: (Body, Option<string>)): (r: seq<Call>)
    ensures |r| == if autoExtract then 3 else 2
    ensures r[0] == UploadPdfCall(pdf) && r[|r| - 1] == UploadThumbnailCall(source.0, source.1)
  {
    [UploadPdfCall(pdf)]
    + (if autoExtract then [GenerateThumbnailCall(pdf)] else [])
    + [UploadThumbnailCall(source.0, source.1)]
  }

  /** Every call a submit can make, in the order it makes them, ending with
      the insert of `record`. */
  function PlannedCalls(autoExtract: bool, pdf: FileInfo, source: (Body, Option<string>),
                        record: PresentationRecord): seq<Call>
  {
    UploadCalls(autoExtract, pdf, source) + [InsertCall(record)]
  }

  /** The row a submit of the fields `f` inserts when both uploads succeed. */
  function SubmitRecord(f: Fields, o: Oracles): (r: PresentationRecord)
    requires f.pdfFile.Some? && (f.autoExtract || f.thumbnailFile.Some?)
  {
    var pdf := f.pdfFile.value;
    Record(f.title, f.description, f.language, pdf, PdfStored(pdf, o),
           ThumbnailStored(ThumbnailSource(f.autoExtract, pdf, f.thumbnailFile), o))
  }

  /** The calls a submit of the fields `f` plans. */
  function SubmitPlan(f: Fields, o: Oracles): seq<Call>
    requires f.pdfFile.Some? && (f.autoExtract || f.thumbnailFile.Some?)
  {
    PlannedCalls(f.autoExtract, f.pdfFile.value, ThumbnailSource(f.autoExtract, f.pdfFile.value, f.thumbnailFile),
                 SubmitRecord(f, o))
  }

  /** How many of the planned calls a submit makes: up to and including the
      first that fails. */
  function CallsMade(autoExtract: bool, o: Oracles): (r: nat)
    ensures 1 <= r
    ensures UploadsSucceed(autoExtract, o) <==> r == (if autoExtract then 4 else 3)
    ensures !UploadsSucceed(autoExtract, o) ==> r <= (if autoExtract then 3 else 2)
  {
    var generate := if autoExtract then 1 else 0;
    if o.pdfUploadError.Some? then 1
    else if autoExtract && o.generateError.Some? then 2
    else if o.thumbnailUploadError.Some? then 2 + generate
    else 3 + generate
  }

  lemma PlanPrefix(uploads: seq<Call>, insert: Call, k: nat)
    requires k <= |uploads|
    ensures (uploads + [insert])[..k] == uploads[..k]
  {
  }

  lemma WholePlan(uploads: seq<Call>, insert: Call, k: nat)
    requires k == |uploads| + 1
    ensures (uploads + [insert])[..k] == uploads + [insert]
  {
  }

  /** The PDF upload comes first and the insert last; all planned calls are
      made exactly when both uploads succeeded, and the thumbnail upload
      only after the PDF upload succeeded. */
  lemma CallOrder(autoExtract: bool, pdf: FileInfo, source: (Body, Option<string>),
                  record: PresentationRecord, o: Oracles)
    ensures CallsMade(autoExtract, o) <= |PlannedCalls(autoExtract, pdf, source, record)|
    ensures PlannedCalls(autoExtract, pdf, source, record)[0] == UploadPdfCall(pdf)
    ensures CallsMade(autoExtract, o) == |PlannedCalls(autoExtract, pdf, source, record)|
      <==> UploadsSucceed(autoExtract, o)
    ensures var calls := PlannedCalls(autoExtract, pdf, source, record);
      calls[|calls| - 1] == InsertCall(record) &&
      forall i :: 0 <= i < |calls| - 1 ==> !calls[i].InsertCall?
    ensures var calls := PlannedCalls(autoExtract, pdf, source, record);
      forall i :: 0 <= i < CallsMade(autoExtract, o) && calls[i].UploadThumbnailCall? ==>
        o.pdfUploadError.None?
  {
  }

  /** The progress values reached before a failure: 10 and 30 before the PDF
      upload, 50 after it, 70 after the thumbnail. */
  function ReachedProgress(autoExtract: bool, o: Oracles): seq<int>
  {
    if o.pdfUploadError.Some? then [10, 30]
    else if !UploadsSucceed(autoExtract, o) then [10, 30, 50]
    else [10, 30, 50, 70]
  }

  /** The progress reached before a failure only rises, and is the start of
      the successful run's. */
  lemma ReachedProgressRises(autoExtract: bool, o: Oracles)
    ensures 2 <= |ReachedProgress(autoExtract, o)| < |SuccessTrace|
    ensures ReachedProgress(autoExtract, o) == SuccessTrace[..|ReachedProgress(autoExtract, o)|]
    ensures forall i, j :: 0 <= i < j < |SuccessTrace| ==> SuccessTrace[i] < SuccessTrace[j]
  {
  }

  /** The part of `handleSubmit` before the insert: progress 10 and 30,
      the PDF upload, progress 50, then the thumbnail stage. Stops at the
      first failure, whose message is the one the `catch` shows. */
  method UploadFiles(autoExtract: bool, pdf: FileInfo, thumbnailFile: Option<FileInfo>, o: Oracles)
    returns (stored: Option<(Stored, Stored)>, failure: Option<string>, calls: seq<Call>, trace: seq<int>)
    requires autoExtract || thumbnailFile.Some?
    ensures stored.Some? <==> UploadsSucceed(autoExtract, o)
    ensures stored.Some? <==> failure.None?
    ensures stored.Some? ==>
      stored.value == (PdfStored(pdf, o), ThumbnailStored(ThumbnailSource(autoExtract, pdf, thumbnailFile), o))
    ensures failure.Some? ==> failure == PipelineError(autoExtract, o)
    ensures failure.Some? ==>
      calls == UploadCalls(autoExtract, pdf, ThumbnailSource(autoExtract, pdf, thumbnailFile))[..CallsMade(autoExtract, o)]
    ensures failure.None? ==> calls == UploadCalls(autoExtract, pdf, ThumbnailSource(autoExtract, pdf, thumbnailFile))
    ensures trace == ReachedProgress(autoExtract, o)
  {
    stored := None;
    trace := [10, 30];
    calls := [UploadPdfCall(pdf)];
    var pdfResult := UploadPdf(pdf, o.pdfTimestamp, o.pdfUploadError, o.base);
    if pdfResult.Err? {
      failure := Some(pdfResult.message);
      return;
    }
    trace := trace + [50];
    var thumbnail;
    thumbnail, calls := ThumbnailStage(autoExtract, pdf, thumbnailFile, o);
    if thumbnail.Err? {
      failure := Some(thumbnail.message);
      return;
    }
    failure := None;
    trace := trace + [70];
    stored := Some((pdfResult.value, thumbnail.value));
  }

  /** The thumbnail part of `handleSubmit`, once the PDF is stored: in auto
      mode the thumbnail is generated from the PDF first; then it is
      uploaded. `calls` are all calls made so far, the PDF upload included. */
  method ThumbnailStage(autoExtract: bool, pdf: FileInfo, thumbnailFile: Option<FileInfo>, o: Oracles)
    returns (thumbnail: Result<Stored>, calls: seq<Call>)
    requires autoExtract || thumbnailFile.Some?
    requires o.pdfUploadError.None?
    ensures thumbnail.Ok? <==> UploadsSucceed(autoExtract, o)
    ensures thumbnail.Ok? ==> thumbnail.value == ThumbnailStored(ThumbnailSource(autoExtract, pdf, thumbnailFile), o)
    ensures thumbnail.Err? ==> Some(thumbnail.message) == PipelineError(autoExtract, o)
    ensures thumbnail.Err? ==>
      calls == UploadCalls(autoExtract, pdf, ThumbnailSource(autoExtract, pdf, thumbnailFile))[..CallsMade(autoExtract, o)]
    ensures thumbnail.Ok? ==> calls == UploadCalls(autoExtract, pdf, ThumbnailSource(autoExtract, pdf, thumbnailFile))
  {
    var source := ThumbnailSource(autoExtract, pdf, thumbnailFile);
    calls := [UploadPdfCall(pdf)];
    if autoExtract {
      calls := calls + [GenerateThumbnailCall(pdf)];
      if o.generateError.Some? {
        thumbnail := Err(o.generateError.value);
        return;
      }
    }
    calls := calls + [UploadThumbnailCall(source.0, source.1)];
    thumbnail := UploadThumbnail(source.0, source.1, o.thumbnailTimestamp, o.thumbnailUploadError, o.base);
  }

  /** A submit whose upload step failed: the upload calls up to the failing
      one, the progress reached and then 0, no row. */
  lemma UploadFailureOutcome(f: Fields, o: Oracles, failure: Option<string>, calls: seq<Call>, trace: seq<int>)
    requires f.pdfFile.Some? && (f.autoExtract || f.thumbnailFile.Some?) && !UploadsSucceed(f.autoExtract, o)
    requires failure == PipelineError(f.autoExtract, o)
    requires calls == UploadCalls(f.autoExtract, f.pdfFile.value,
                                  ThumbnailSource(f.autoExtract, f.pdfFile.value, f.thumbnailFile))[..CallsMade(f.autoExtract, o)]
    requires trace == ReachedProgress(f.autoExtract, o) + [0]
    ensures SubmitOutcome(f, o, None, failure, calls, trace)
  {
    var uploads := UploadCalls(f.autoExtract, f.pdfFile.value,
                               ThumbnailSource(f.autoExtract, f.pdfFile.value, f.thumbnailFile));
    PlanPrefix(uploads, InsertCall(SubmitRecord(f, o)), CallsMade(f.autoExtract, o));
  }

  /** A submit whose uploads and insert succeeded: every planned call is
      made, progress ends at 100 and the row is the one built from the
      fields and both upload results. */
  lemma InsertSucceeded(f: Fields, o: Oracles, calls: seq<Call>)
    requires f.pdfFile.Some? && (f.autoExtract || f.thumbnailFile.Some?) && UploadsSucceed(f.autoExtract, o)
    requires o.dbError.None?
    requires calls == UploadCalls(f.autoExtract, f.pdfFile.value,
                                  ThumbnailSource(f.autoExtract, f.pdfFile.value, f.thumbnailFile))
                      + [InsertCall(SubmitRecord(f, o))]
    ensures SubmitOutcome(f, o, Some(SubmitRecord(f, o)), None, calls, SuccessTrace)
  {
    var uploads := UploadCalls(f.autoExtract, f.pdfFile.value,
                               ThumbnailSource(f.autoExtract, f.pdfFile.value, f.thumbnailFile));
    WholePlan(uploads, InsertCall(SubmitRecord(f, o)), CallsMade(f.autoExtract, o));
  }

  /** A submit whose uploads succeeded but whose insert the database refused:
      every planned call is made, no row results, and progress falls from 70
      back to 0. */
  lemma InsertRefused(f: Fields, o: Oracles, calls: seq<Call>)
    requires f.pdfFile.Some? && (f.autoExtract || f.thumbnailFile.Some?) && UploadsSucceed(f.autoExtract, o)
    requires o.dbError.Some?
    requires calls == UploadCalls(f.autoExtract, f.pdfFile.value,
                                  ThumbnailSource(f.autoExtract, f.pdfFile.value, f.thumbnailFile))
                      + [InsertCall(SubmitRecord(f, o))]
    ensures SubmitOutcome(f, o, None, Some("Database error: " + o.dbError.value), calls, [10, 30, 50, 70, 0])
  {
    assert ReachedProgress(f.autoExtract, o) + [0] == [10, 30, 50, 70, 0];
    var uploads := UploadCalls(f.autoExtract, f.pdfFile.value,
                               ThumbnailSource(f.autoExtract, f.pdfFile.value, f.thumbnailFile));
    WholePlan(uploads, InsertCall(SubmitRecord(f, o)), CallsMade(f.autoExtract, o));
  }

  /** The insert, once both uploads succeeded with the results `stored`:
      the row built from the fields and the two results, and the database's
      error if it refuses it. */
  method InsertRow(f: Fields, o: Oracles, stored: (Stored, Stored))
    returns (record: PresentationRecord, failure: Option<string>)
    requires f.pdfFile.Some? && (f.autoExtract || f.thumbnailFile.Some?) && UploadsSucceed(f.autoExtract, o)
    requires stored == (PdfStored(f.pdfFile.value, o),
                        ThumbnailStored(ThumbnailSource(f.autoExtract, f.pdfFile.value, f.thumbnailFile), o))
    ensures record == SubmitRecord(f, o)
    ensures failure == PipelineError(f.autoExtract, o)
  {
    record := Record(f.title, f.description, f.language, f.pdfFile.value, stored.0, stored.1);
    failure := None;
    if o.dbError.Some? {
      failure := Some("Database error: " + o.dbError.value);
    }
  }

  /** What a submit of the fields `f` that passed the checks comes to: the
      first failing step's message (or none), the calls up to and including
      the failing one, the progress values shown, and on success the row
      built from the fields and both upload results. */
  predicate SubmitOutcome(f: Fields, o: Oracles, inserted: Option<PresentationRecord>,
                          error: Option<string>, calls: seq<Call>, trace: seq<int>)
    requires f.pdfFile.Some? && (f.autoExtract || f.thumbnailFile.Some?)
  {
    && error == PipelineError(f.autoExtract, o)
    && calls == SubmitPlan(f, o)[..CallsMade(f.autoExtract, o)]
    && (error.None? ==> trace == SuccessTrace && inserted == Some(SubmitRecord(f, o)))
    && (error.Some? ==> inserted.None? && trace == ReachedProgress(f.autoExtract, o) + [0])
  }

  /** The `try` of `handleSubmit`: the uploads, then the insert. On success
      progress ends at 100 and the row is the one built from the fields and
      both upload results; on failure the first failing step's message is
      the result and progress returns to 0 (the `catch`). */
  method RunPipeline(f: Fields, o: Oracles)
    returns (inserted: Option<PresentationRecord>, failure: Option<string>, calls: seq<Call>, trace: seq<int>)
    requires f.pdfFile.Some? && (f.autoExtract || f.thumbnailFile.Some?)
    ensures SubmitOutcome(f, o, inserted, failure, calls, trace)
  {
    var stored, uploadCalls, reached;
    stored, failure, uploadCalls, reached := UploadFiles(f.autoExtract, f.pdfFile.value, f.thumbnailFile, o);
    if failure.Some? {
      inserted, calls, trace := None, uploadCalls, reached + [0];
      UploadFailureOutcome(f, o, failure, calls, trace);
    } else {
      inserted, failure, calls, trace := InsertStage(f, o, stored.value, uploadCalls);
    }
  }

  /** The insert, once both uploads succeeded: the row goes after the upload
      calls, and progress ends at 100 or, when the database refuses the row,
      at 0. */
  method InsertStage(f: Fields, o: Oracles, stored: (Stored, Stored), uploadCalls: seq<Call>)
    returns (inserted: Option<PresentationRecord>, failure: Option<string>, calls: seq<Call>, trace: seq<int>)
    requires f.pdfFile.Some? && (f.autoExtract || f.thumbnailFile.Some?) && UploadsSucceed(f.autoExtract, o)
    requires stored == (PdfStored(f.pdfFile.value, o),
                        ThumbnailStored(ThumbnailSource(f.autoExtract, f.pdfFile.value, f.thumbnailFile), o))
    requires uploadCalls == UploadCalls(f.autoExtract, f.pdfFile.value,
                                        ThumbnailSource(f.autoExtract, f.pdfFile.value, f.thumbnailFile))
    ensures SubmitOutcome(f, o, inserted, failure, calls, trace)
  {
    var record;
    record, failure := InsertRow(f, o, stored);
    calls := uploadCalls + [InsertCall(record)];
    if failure.Some? {
      inserted, trace := None, [10, 30, 50, 70, 0];
      InsertRefused(f, o, calls);
    } else {
      inserted, trace := Some(record), SuccessTrace;
      InsertSucceeded(f, o, calls);
    }
  }

  // -------------------------------------------------------- the controller

  class PresentationUploadForm {
    var pdfFile: Option<FileInfo>
    var thumbnailFile: Option<FileInfo>
    var autoExtract: bool
    var title: string
    var description: string
    var language: string
    var uploading: bool
    var progress: int
    var error: Option<string>
    var success: bool

    function Inputs(): Fields
      reads this
    {
      Fields(pdfFile, thumbnailFile, autoExtract, title, description, language)
    }

    constructor ()
      ensures Inputs() == DefaultFields
      ensures !uploading && progress == 0 && error.None? && !success
    {
      pdfFile := None;
      thumbnailFile := None;
      autoExtract := true;
      title := "";
      description := "";
      language := "en";
      uploading := false;
      progress := 0;
      error := None;
      success := false;
    }

    /** `handlePDFSelect`: no file changes nothing; an invalid file shows the
        validator's error and clears the stored PDF; a valid one clears the
        error and is stored. */
    method SelectPdf(file: Option<FileInfo>)
      modifies this
      ensures file.None? ==> pdfFile == old(pdfFile) && error == old(error)
      ensures file.Some? && !ValidatePdfFile(file.value).valid ==>
        error == ValidatePdfFile(file.value).error && pdfFile.None?
      ensures file.Some? && ValidatePdfFile(file.value).valid ==> error.None? && pdfFile == file
      ensures Inputs() == old(Inputs()).(pdfFile := pdfFile)
      ensures uploading == old(uploading) && progress == old(progress) && success == old(success)
    {
      if file.None? {
        return;
      }
      var validation := ValidatePdfFile(file.value);
      if !validation.valid {
        error := Some(if validation.error.Some? then validation.error.value else "Invalid PDF file");
        pdfFile := None;
        return;
      }
      error := None;
      pdfFile := file;
    }

    /** The `try` of `handleSubmit`, once the checks have passed: the
        pipeline runs, and on success every field goes back to its default.
        `uploading` is false afterwards either way (the `finally`). */
    method Publish(f: Fields, o: Oracles) returns (inserted: Option<PresentationRecord>, calls: seq<Call>, trace: seq<int>)
      requires Inputs() == f && f.pdfFile.Some? && (f.autoExtract || f.thumbnailFile.Some?) && !success
      modifies this
      ensures !uploading && SubmitOutcome(f, o, inserted, error, calls, trace)
      ensures ProgressView(uploading, progress) == []
      ensures error.None? ==> success && Inputs() == DefaultFields && progress == 100
      ensures error.Some? ==> !success && Inputs() == f && progress == 0
    {
      uploading := true;
      var failure;
      inserted, failure, calls, trace := RunPipeline(f, o);
      Conclude(failure);
    }

    /** The end of a submit that passed the checks: on success the success
        flag, progress at 100 and every field back to its default; on
        failure the message and progress back at 0. `uploading` ends false
        either way (the `finally`). */
    method Conclude(failure: Option<string>)
      modifies this
      ensures error == failure && !uploading
      ensures failure.None? ==> success && Inputs() == DefaultFields && progress == 100
      ensures failure.Some? ==> success == old(success) && Inputs() == old(Inputs()) && progress == 0
    {
      error := failure;
      if failure.None? {
        progress := 100;
        success := true;
        pdfFile := None;
        thumbnailFile := None;
        title := "";
        description := "";
        language := "en";
        autoExtract := true;
      } else {
        progress := 0;
      }
      uploading := false;
    }

    /** `handleSubmit`: the error and success flags cleared, then the checks
        in order; a failed check shows its message before any call, and
        otherwise the submit publishes. */
    method Submit(o: Oracles) returns (inserted: Option<PresentationRecord>, calls: seq<Call>, trace: seq<int>)
      modifies this
      ensures var f := old(Inputs());
        SubmitCheck(f.pdfFile, f.title, f.autoExtract, f.thumbnailFile).Some? ==>
          error == SubmitCheck(f.pdfFile, f.title, f.autoExtract, f.thumbnailFile) &&
          calls == [] && trace == [] && inserted.None? && !success &&
          uploading == old(uploading) && progress == old(progress) && Inputs() == f
      ensures var f := old(Inputs());
        SubmitCheck(f.pdfFile, f.title, f.autoExtract, f.thumbnailFile).None? ==>
          !uploading && SubmitOutcome(f, o, inserted, error, calls, trace) &&
          (error.None? ==> success && Inputs() == DefaultFields && progress == 100) &&
          (error.Some? ==> !success && Inputs() == f && progress == 0)
    {
      ghost var f := Inputs();
      error := None;
      success := false;
      var check := SubmitCheck(pdfFile, title, autoExtract, thumbnailFile);
      if check.Some? {
        error := check;
        inserted, calls, trace := None, [], [];
        return;
      }
      inserted, calls, trace := Publish(Inputs(), o);
    }
  }
}
