/** The "share your moment" dialog (`UploadModal`): picking an image,
    the suggestion buttons, validation and the record sent to the store. */
module UploadForm {
  import opened Optional
  import Posts

  datatype Form = Form(
    title: string,
    writeUp: string,
    caption: string,
    imageUrl: string,
    altText: string,
    authorName: string,
    authorEmail: string)

  datatype Modal = Modal(form: Form, preview: string, uploading: bool, open: bool)

  const EmptyForm: Form := Form("", "", "", "", "", "", "")

  /** Images above 5 MiB are refused. */
  const MaxImageBytes: nat := 5 * 1024 * 1024

  /** Longest write-up accepted, in characters. */
  const MaxWriteUp: nat := 200

  /** A picked file: its size in bytes and the data URL the reader makes of
      it. */
  datatype ImageFile = ImageFile(size: nat, dataUrl: string)

  /** `handleFileSelect`: no file or a file above the limit changes
      nothing; otherwise the image is previewed and becomes the post's image. */
  function SelectFile(m: Modal, file: Option<ImageFile>): (r: Modal)
    ensures file.None? || file.value.size > MaxImageBytes ==> r == m
    ensures file.Some? && file.value.size <= MaxImageBytes ==>
      && r.preview == file.value.dataUrl && r.form.imageUrl == file.value.dataUrl
      && r == m.(preview := r.preview, form := m.form.(imageUrl := r.form.imageUrl))
  {
    match file
    case None => m
    case Some(f) =>
      if f.size > MaxImageBytes then m
      else m.(preview := f.dataUrl, form := m.form.(imageUrl := f.dataUrl))
  }

  /** The remove button on the preview: no preview, no image. */
  function ClearImage(m: Modal): (r: Modal)
    ensures r.preview == "" && r.form.imageUrl == ""
    ensures r == m.(preview := "", form := m.form.(imageUrl := ""))
  {
    m.(preview := "", form := m.form.(imageUrl := ""))
  }

  /** Picking a file touches the image only: once the image is removed the
      dialog is as if no file had been picked. */
  lemma SelectThenClear(m: Modal, file: Option<ImageFile>)
    ensures ClearImage(SelectFile(m, file)) == ClearImage(m)
  {
  }

  /** `insertCaption`: a suggested caption replaces the caption only. */
  function InsertCaption(f: Form, caption: string): (r: Form)
    ensures r.caption == caption && r == f.(caption := r.caption)
  {
    f.(caption := caption)
  }

  /** `insertWriteUp`: a suggested write-up replaces the write-up only. */
  function InsertWriteUp(f: Form, writeUp: string): (r: Form)
    ensures r.writeUp == writeUp && r == f.(writeUp := r.writeUp)
  {
    f.(writeUp := writeUp)
  }

  /** The two suggestion buttons touch different fields, so the order in
      which they are used does not matter. */
  lemma SuggestionsCommute(f: Form, caption: string, writeUp: string)
    ensures InsertWriteUp(InsertCaption(f, caption), writeUp) == InsertCaption(InsertWriteUp(f, writeUp), caption)
  {
  }

  datatype Rejection = MissingField | WriteUpTooLong

  /** Every field but the e-mail is filled in. */
  predicate RequiredPresent(f: Form) {
    f.imageUrl != [] && f.title != [] && f.writeUp != [] && f.caption != [] && f.authorName != [] && f.altText != []
  }

  /** The checks of `handleSubmit`, in the page's order: a missing field
      first, then an over-long write-up. `None` means the form is accepted. */
  function Validate(f: Form): (r: Option<Rejection>)
    ensures r == None <==> RequiredPresent(f) && |f.writeUp| <= MaxWriteUp
    ensures r == Some(MissingField) <==> !RequiredPresent(f)
    ensures r == Some(WriteUpTooLong) <==> RequiredPresent(f) && |f.writeUp| > MaxWriteUp
  {
    if f.imageUrl == [] || f.title == [] || f.writeUp == [] || f.caption == [] || f.authorName == [] || f.altText == [] then
      Some(MissingField)
    else if |f.writeUp| > MaxWriteUp then Some(WriteUpTooLong)
    else None
  }

  /** The row `handleSubmit` inserts into the posts table. */
  datatype NewPost = NewPost(
    title: string,
    writeUp: string,
    caption: string,
    imageUrl: string,
    altText: string,
    authorName: string,
    authorEmail: Option<string>,
    status: Posts.Status)

  /** The fields as typed, an empty e-mail sent as null, and the post
      published straight away. */
  function BuildRecord(f: Form): (p: NewPost)
    ensures p.status == Posts.Published
    ensures p.authorEmail.None? <==> f.authorEmail == []
  {
    NewPost(f.title, f.writeUp, f.caption, f.imageUrl, f.altText, f.authorName,
            if f.authorEmail == [] then None else Some(f.authorEmail), Posts.Published)
  }

  /** The form a record was built from. */
  function FormOf(p: NewPost): Form {
    Form(p.title, p.writeUp, p.caption, p.imageUrl, p.altText, p.authorName, p.authorEmail.GetOr(""))
  }

  /** The record keeps everything the visitor typed: reading the form back
      from it gives the form. */
  lemma RecordRoundTrip(f: Form)
    ensures FormOf(BuildRecord(f)) == f
  {
  }

  datatype SubmitOutcome = SubmitOutcome(modal: Modal, sent: Option<NewPost>)

  /** `handleSubmit`. A rejected form sends nothing and changes nothing. An
      accepted one sends its record; when the store takes it the dialog
      closes and the form and preview are emptied, when it refuses the form
      stays as it was. Either way the dialog is no longer uploading. */
  function Submit(m: Modal, stored: bool): (r: SubmitOutcome)
    ensures Validate(m.form).Some? ==> r == SubmitOutcome(m, None)
    ensures Validate(m.form) == None ==> r.sent == Some(BuildRecord(m.form)) && !r.modal.uploading
    ensures Validate(m.form) == None && stored ==>
      r.modal.form == EmptyForm && r.modal.preview == "" && !r.modal.open
    ensures Validate(m.form) == None && !stored ==> r.modal == m.(uploading := false)
  {
    if Validate(m.form).Some? then SubmitOutcome(m, None)
    else
      var record := BuildRecord(m.form);
      if stored then SubmitOutcome(Reset(m).(open := false, uploading := false), Some(record))
      else SubmitOutcome(m.(uploading := false), Some(record))
  }

  /** `resetForm`: every field and the preview back to empty. */
  function Reset(m: Modal): (r: Modal)
    ensures r.form == EmptyForm && r.preview == ""
    ensures r.uploading == m.uploading && r.open == m.open
  {
    m.(form := EmptyForm, preview := "")
  }

  /** An emptied form cannot be submitted again until it is filled in. */
  lemma ResetFormIsRejected(m: Modal)
    ensures Validate(Reset(m).form) == Some(MissingField)
  {
  }
}
