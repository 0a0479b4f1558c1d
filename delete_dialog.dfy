/** The admin delete confirmation (components/admin/delete-confirmation-dialog.tsx):
    the database row is deleted first, then the stored files, whose failure
    is swallowed; the parent is told of success and asked to close. The
    database and the object store are parameters. */
module DeleteDialog {
  import opened Text
  import opened Storage

  /** The part of a presentation row the dialog uses. */
  datatype Presentation = Presentation(
    id: string,
    title: string,
    pdfStoragePath: string,
    thumbnailStoragePath: Option<string>)

  /** The error (if any) of the row delete and of the two removals. */
  datatype DeleteOracles = DeleteOracles(
    dbError: Option<string>,
    pdfRemoveError: Option<string>,
    thumbnailRemoveError: Option<string>)

  /** What the dialog does outside itself, in order: the row delete, the
      object removals, and the two parent callbacks. */
  datatype Effect =
    | DeleteRow(id: string)
    | RemoveObject(removal: Removal)
    | NotifySuccess
    | RequestOpen(open: bool)

  /** The removals `deletePresentationFiles` attempts for the presentation's
      two stored paths. */
  function PairRemovals(p: Presentation): (r: seq<Removal>)
    ensures 1 <= |r| <= 2 && r[0] == Removal(PdfBucket, p.pdfStoragePath)
    ensures |r| == 2 <==> HasThumbnail(p.thumbnailStoragePath)
    ensures |r| == 2 ==> r[1] == Removal(ThumbnailBucket, p.thumbnailStoragePath.value)
  {
    [Removal(PdfBucket, p.pdfStoragePath)]
    + (if HasThumbnail(p.thumbnailStoragePath) then [Removal(ThumbnailBucket, p.thumbnailStoragePath.value)] else [])
  }

  function RemovalEffects(removals: seq<Removal>): (r: seq<Effect>)
    ensures |r| == |removals|
    ensures forall i :: 0 <= i < |r| ==> r[i] == RemoveObject(removals[i])
  {
    if removals == [] then [] else [RemoveObject(removals[0])] + RemovalEffects(removals[1..])
  }

  /** The message `handleDelete` shows: the database's refusal, prefixed. */
  function DeleteError(o: DeleteOracles): (r: Option<string>)
    ensures r.None? <==> o.dbError.None?
    ensures r.Some? ==> r.value == "Database error: " + o.dbError.value
  {
    if o.dbError.Some? then Some("Database error: " + o.dbError.value) else None
  }

  /** The effects of `handleDelete`, in order. */
  function DeleteEffects(p: Presentation, o: DeleteOracles): seq<Effect>
  {
    [DeleteRow(p.id)]
    + (if o.dbError.Some? then [] else RemovalEffects(PairRemovals(p)) + [NotifySuccess, RequestOpen(false)])
  }

  /** The row goes first and alone when it fails; otherwise the removals
      follow it and the dialog then reports success and asks to close. No
      storage call happens before the row is gone. */
  lemma DeleteOrder(p: Presentation, o: DeleteOracles)
    ensures var e := DeleteEffects(p, o);
      e[0] == DeleteRow(p.id) && forall i :: 0 < i < |e| ==> !e[i].DeleteRow?
    ensures o.dbError.Some? <==> DeleteEffects(p, o) == [DeleteRow(p.id)]
    ensures NotifySuccess in DeleteEffects(p, o) <==> o.dbError.None?
    ensures var e := DeleteEffects(p, o);
      o.dbError.None? ==> |e| == |PairRemovals(p)| + 3 && e[|e| - 2..] == [NotifySuccess, RequestOpen(false)]
  {
    var e := DeleteEffects(p, o);
    if o.dbError.None? {
      var removals := RemovalEffects(PairRemovals(p));
      assert e == [DeleteRow(p.id)] + removals + [NotifySuccess, RequestOpen(false)];
      assert e[|e| - 2] == NotifySuccess;
    } else {
      assert e == [DeleteRow(p.id)];
      forall i | 0 <= i < |e| ensures e[i] != NotifySuccess {
      }
    }
  }

  /** Removal failures change nothing the dialog does or shows. */
  lemma StorageErrorsSwallowed(p: Presentation, o: DeleteOracles, pdfRemoveError: Option<string>,
                               thumbnailRemoveError: Option<string>)
    ensures var o' := o.(pdfRemoveError := pdfRemoveError, thumbnailRemoveError := thumbnailRemoveError);
      DeleteEffects(p, o') == DeleteEffects(p, o) && DeleteError(o') == DeleteError(o)
  {
  }

  /** The `try` of `handleDelete`: the row delete, then, when it succeeded,
      the pair removal whose outcome is ignored, then the two callbacks. */
  method RunDelete(p: Presentation, o: DeleteOracles) returns (failure: Option<string>, effects: seq<Effect>)
    ensures failure == DeleteError(o)
    ensures effects == DeleteEffects(p, o)
  {
    effects := [DeleteRow(p.id)];
    if o.dbError.Some? {
      failure := Some("Database error: " + o.dbError.value);
      return;
    }
    var outcome, attempted := DeletePresentationFiles(p.pdfStoragePath, p.thumbnailStoragePath,
                                                     o.pdfRemoveError, o.thumbnailRemoveError);
    assert attempted == PairRemovals(p);
    effects := effects + RemovalEffects(attempted) + [NotifySuccess, RequestOpen(false)];
    failure := None;
  }

  class DeleteConfirmationDialog {
    var loading: bool
    var error: Option<string>

    constructor ()
      ensures !loading && error.None?
    {
      loading := false;
      error := None;
    }

    /** `handleDelete`: the error cleared and loading set, the deletion, the
        database's message on failure, and loading false at the end (the
        `finally`). */
    method HandleDelete(p: Presentation, o: DeleteOracles) returns (effects: seq<Effect>)
      modifies this
      ensures !loading && error == DeleteError(o)
      ensures effects == DeleteEffects(p, o)
    {
      error := None;
      loading := true;
      var failure;
      failure, effects := RunDelete(p, o);
      if failure.Some? {
        error := failure;
      }
      loading := false;
    }

    /** `handleOpenChange`: ignored while loading; otherwise closing clears
        the error, and the request goes to the parent. */
    method HandleOpenChange(newOpen: bool) returns (effects: seq<Effect>)
      modifies this
      ensures loading == old(loading)
      ensures old(loading) ==> effects == [] && error == old(error)
      ensures !old(loading) ==> effects == [RequestOpen(newOpen)]
      ensures !old(loading) ==> error == if newOpen then old(error) else None
    {
      effects := [];
      if !loading {
        if !newOpen {
          error := None;
        }
        effects := [RequestOpen(newOpen)];
      }
    }

    /** Both buttons are disabled while loading, and the delete button then
        reads `Deleting...`. */
    function DeleteButtonLabel(): (r: string)
      reads this
      ensures r == "Deleting..." <==> loading
    {
      if loading then "Deleting..." else "Delete Presentation"
    }
  }
}
