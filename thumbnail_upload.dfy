/** The thumbnail picker of the upload form (components/admin/thumbnail-upload.tsx):
    choosing an image validates it and hands it to the parent, removing it
    clears the preview and the file input, and turning auto-extract on also
    removes a manual choice. The parent's callbacks and the `FileReader` are
    effects the handlers request. */
module ThumbnailUpload {
  import opened Text
  import opened Storage

  /** What a handler does outside the component, in order. */
  datatype Effect =
    | ThumbnailChanged(file: Option<FileInfo>)
    | AutoExtractChanged(value: bool)
    | ReadPreview(image: FileInfo)

  /** The message shown for a rejected file, or none for an accepted one. */
  function SelectionError(file: FileInfo): (r: Option<string>)
    ensures r.None? <==> file.mimeType in ThumbnailTypes && file.size <= ThumbnailMaxSize
    ensures r.Some? ==> r == ValidateThumbnailFile(file).error
  {
    var validation := ValidateThumbnailFile(file);
    if validation.valid then None
    else Some(if validation.error.Some? then validation.error.value else "Invalid file")
  }

  class ThumbnailPicker {
    var preview: Option<string>
    var error: Option<string>
    /** The file the hidden input holds. The browser sets it on every
        selection, before the change handler runs. */
    var inputFile: Option<FileInfo>

    constructor ()
      ensures preview.None? && error.None? && inputFile.None?
    {
      preview := None;
      error := None;
      inputFile := None;
    }

    /** `handleFileSelect`, after the browser has put the selection in the
        input: nothing without a file; a rejected file shows its error,
        leaves the preview and tells the parent nothing (it stays in the
        input); an accepted one clears the error, goes to the parent and
        starts reading the preview. */
    method HandleFileSelect(file: Option<FileInfo>) returns (effects: seq<Effect>)
      modifies this
      ensures preview == old(preview) && inputFile == file
      ensures file.None? ==> error == old(error) && effects == []
      ensures file.Some? && SelectionError(file.value).Some? ==>
        error == SelectionError(file.value) && effects == []
      ensures file.Some? && SelectionError(file.value).None? ==>
        error.None? && effects == [ThumbnailChanged(file), ReadPreview(file.value)]
    {
      inputFile := file;
      effects := [];
      if file.None? {
        return;
      }
      var validation := ValidateThumbnailFile(file.value);
      if !validation.valid {
        error := Some(if validation.error.Some? then validation.error.value else "Invalid file");
        return;
      }
      error := None;
      effects := [ThumbnailChanged(file), ReadPreview(file.value)];
    }

    /** The reader's `onloadend`: the data URL becomes the preview. */
    method PreviewRead(dataUrl: string)
      modifies this
      ensures preview == Some(dataUrl) && error == old(error) && inputFile == old(inputFile)
    {
      preview := Some(dataUrl);
    }

    /** `handleRemove`: preview and error cleared, the parent told there is
        no thumbnail, and the file input emptied. */
    method HandleRemove() returns (effects: seq<Effect>)
      modifies this
      ensures preview.None? && error.None? && inputFile.None?
      ensures effects == [ThumbnailChanged(None)]
    {
      preview := None;
      error := None;
      effects := [ThumbnailChanged(None)];
      inputFile := None;
    }

    /** `handleAutoExtractChange`: the flag goes to the parent; turning it on
        also removes the manual thumbnail, turning it off changes nothing
        else. */
    method HandleAutoExtractChange(checked: bool) returns (effects: seq<Effect>)
      modifies this
      ensures checked ==> preview.None? && error.None? && inputFile.None?
      ensures checked ==> effects == [AutoExtractChanged(true), ThumbnailChanged(None)]
      ensures !checked ==> preview == old(preview) && error == old(error) && inputFile == old(inputFile)
      ensures !checked ==> effects == [AutoExtractChanged(false)]
    {
      effects := [AutoExtractChanged(checked)];
      if checked {
        var removed := HandleRemove();
        effects := effects + removed;
      }
    }
  }

  /** Whatever was chosen before, switching to auto-extract leaves no manual
      thumbnail behind: the input is emptied and the parent's last word is
      "no thumbnail". */
  method AutoExtractClearsChoice(picker: ThumbnailPicker, file: FileInfo) returns (effects: seq<Effect>)
    modifies picker
    ensures picker.preview.None? && picker.error.None? && picker.inputFile.None?
    ensures |effects| >= 1 && effects[|effects| - 1] == ThumbnailChanged(None)
  {
    var chosen := picker.HandleFileSelect(Some(file));
    var switched := picker.HandleAutoExtractChange(true);
    effects := chosen + switched;
  }
}
