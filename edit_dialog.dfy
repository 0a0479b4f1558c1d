/** The admin edit dialog (components/admin/edit-presentation-dialog.tsx):
    its fields start from the presentation, a submit with a non-blank title
    updates the row and closes the dialog, and closing puts the fields back.
    The database is a parameter. */
module EditDialog {
  import opened Text

  /** The part of a presentation row the dialog uses. */
  datatype Presentation = Presentation(
    id: string,
    title: string,
    description: Option<string>,
    isFeatured: Option<bool>)

  /** The columns the update writes. */
  datatype Changes = Changes(title: string, description: Option<string>, isFeatured: bool)

  /** What the dialog does outside itself, in order. */
  datatype Effect =
    | UpdateRow(id: string, changes: Changes)
    | NotifySuccess
    | RequestOpen(open: bool)

  /** The editable fields. */
  datatype Fields = Fields(title: string, description: string, isFeatured: bool)

  /** The fields as the presentation gives them: a missing description is
      empty and a missing featured flag is off. */
  function InitialFields(p: Presentation): (r: Fields)
    ensures r.title == p.title
    ensures r.description == (if p.description.Some? then p.description.value else "")
    ensures r.isFeatured <==> p.isFeatured == Some(true)
  {
    Fields(p.title,
           if p.description.Some? then p.description.value else "",
           if p.isFeatured.Some? then p.isFeatured.value else false)
  }

  /** The update a submit of `f` sends: the trimmed title, the trimmed
      description or null, and the flag. */
  function ChangesOf(f: Fields): (r: Changes)
    ensures r.title == Trim(f.title) && r.isFeatured == f.isFeatured
    ensures r.description.None? <==> IsBlank(f.description)
    ensures r.description.Some? ==> r.description.value == Trim(f.description)
  {
    Changes(Trim(f.title), TrimOrNull(f.description), f.isFeatured)
  }

  /** The message a submit leaves: `Title is required` for a blank title,
      the database's message when the update fails, none on success. */
  function SubmitError(f: Fields, updateError: Option<string>): (r: Option<string>)
    ensures IsBlank(f.title) ==> r == Some("Title is required")
    ensures !IsBlank(f.title) ==> r == updateError
  {
    TrimEmptyIffBlank(f.title);
    if Trim(f.title) == "" then Some("Title is required") else updateError
  }

  /** The effects of a submit, in order. */
  function SubmitEffects(p: Presentation, f: Fields, updateError: Option<string>): seq<Effect>
  {
    if Trim(f.title) == "" then []
    else [UpdateRow(p.id, ChangesOf(f))] + (if updateError.None? then [NotifySuccess, RequestOpen(false)] else [])
  }

  /** A blank title sends nothing; otherwise exactly one update, of this
      presentation, with a non-empty title, followed on success (and only
      then) by the success callback and the close request. */
  lemma SubmitOrder(p: Presentation, f: Fields, updateError: Option<string>)
    ensures SubmitEffects(p, f, updateError) == [] <==> IsBlank(f.title)
    ensures var e := SubmitEffects(p, f, updateError);
      !IsBlank(f.title) ==> e[0] == UpdateRow(p.id, ChangesOf(f)) && ChangesOf(f).title != ""
    ensures var e := SubmitEffects(p, f, updateError);
      !IsBlank(f.title) ==> (|e| == 3 <==> updateError.None?)
    ensures var e := SubmitEffects(p, f, updateError);
      |e| == 3 ==> e[1] == NotifySuccess && e[2] == RequestOpen(false)
  {
    TrimEmptyIffBlank(f.title);
  }

  /** The `try` of `handleSubmit`, once the title is known not to be blank:
      the update, then on success the two callbacks, and on failure the
      database's message. */
  method RunUpdate(p: Presentation, f: Fields, updateError: Option<string>)
    returns (failure: Option<string>, effects: seq<Effect>)
    requires !IsBlank(f.title)
    ensures failure == SubmitError(f, updateError)
    ensures effects == SubmitEffects(p, f, updateError)
  {
    TrimEmptyIffBlank(f.title);
    effects := [UpdateRow(p.id, ChangesOf(f))];
    failure := None;
    if updateError.Some? {
      failure := updateError;
    } else {
      effects := effects + [NotifySuccess, RequestOpen(false)];
    }
  }

  /** The dialog. `fields` stands for the three inputs. */
  class EditPresentationDialog {
    var fields: Fields
    var loading: bool
    var error: Option<string>

    /** The initial state, from the presentation. */
    constructor (p: Presentation)
      ensures fields == InitialFields(p) && !loading && error.None?
    {
      fields := InitialFields(p);
      loading := false;
      error := None;
    }

    /** Typing in the inputs or toggling the checkbox, which are disabled
        while loading. */
    method Edit(f: Fields)
      requires !loading
      modifies this
      ensures fields == f && !loading && error == old(error)
    {
      fields := f;
    }

    /** `handleSubmit`: the error cleared; a blank title stops with its
        message; otherwise the update, then on success the callbacks, and
        on failure the message with the dialog left open. Loading is false
        afterwards (the `finally`), and the fields are not touched. */
    method HandleSubmit(p: Presentation, updateError: Option<string>) returns (effects: seq<Effect>)
      modifies this
      ensures fields == old(fields)
      ensures error == SubmitError(fields, updateError)
      ensures effects == SubmitEffects(p, fields, updateError)
      ensures IsBlank(fields.title) ==> loading == old(loading)
      ensures !IsBlank(fields.title) ==> !loading
    {
      var f := fields;
      error := None;
      TrimEmptyIffBlank(f.title);
      if Trim(f.title) == "" {
        error := Some("Title is required");
        effects := [];
        return;
      }
      loading := true;
      error, effects := RunUpdate(p, f, updateError);
      loading := false;
    }

    /** `handleOpenChange`: ignored while loading; closing puts the fields
        back to the presentation's values and clears the error; the request
        goes to the parent. */
    method HandleOpenChange(p: Presentation, newOpen: bool) returns (effects: seq<Effect>)
      modifies this
      ensures loading == old(loading)
      ensures old(loading) ==> effects == [] && fields == old(fields) && error == old(error)
      ensures !old(loading) ==> effects == [RequestOpen(newOpen)]
      ensures !old(loading) && !newOpen ==> fields == InitialFields(p) && error.None?
      ensures !old(loading) && newOpen ==> fields == old(fields) && error == old(error)
    {
      effects := [];
      if !loading {
        if !newOpen {
          fields := InitialFields(p);
          error := None;
        }
        effects := [RequestOpen(newOpen)];
      }
    }
  }

  /** Edits abandoned by closing do not survive: a closed and reopened
      dialog shows the presentation's values again. */
  method CloseDiscardsEdits(p: Presentation, edited: Fields) returns (d: EditPresentationDialog)
    ensures d.fields == InitialFields(p) && d.error.None? && !d.loading
  {
    d := new EditPresentationDialog(p);
    d.Edit(edited);
    var closed := d.HandleOpenChange(p, false);
    var reopened := d.HandleOpenChange(p, true);
  }
}
