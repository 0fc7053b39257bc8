/** The template upload form: a template name, the chosen file, and whether
    a file is being dragged over the drop zone. */
module TemplateUpload {
  import opened Wrappers
  import opened Strings

  /** A file the browser hands over: its name and MIME type. */
  datatype PickedFile = PickedFile(name: string, mime: string)

  datatype UploadForm = UploadForm(dragging: bool, file: Option<PickedFile>, name: string)

  /** The new form state and the error shown to the user, if any. */
  datatype Step = Step(form: UploadForm, error: Option<string>)

  const PdfMime := "application/pdf"
  const NotPdfMessage := "Please upload a PDF file"
  const InitialUpload := UploadForm(false, None, "")

  /** The template name suggested by a file name: the file name with its
      first ".pdf" removed (case-sensitive). */
  function DefaultName(fileName: string): (r: string)
    ensures (forall j: nat :: !OccursAt(".pdf", fileName, j)) ==> r == fileName
    ensures forall i: nat :: FirstOccurrence(".pdf", fileName, i) ==>
      |r| == |fileName| - 4 && r[..i] + ".pdf" + r[i..] == fileName
  {
    var r := ReplaceFirst(fileName, ".pdf", "");
    assert forall i: nat :: FirstOccurrence(".pdf", fileName, i) ==> r[..i] + ".pdf" + r[i..] == fileName by {
      forall i: nat | FirstOccurrence(".pdf", fileName, i) ensures r[..i] + ".pdf" + r[i..] == fileName {
        assert r == fileName[..i] + fileName[i + 4..];
        assert r[..i] == fileName[..i];
        assert r[i..] == fileName[i + 4..];
        assert fileName == fileName[..i] + fileName[i..i + 4] + fileName[i + 4..];
      }
    }
    r
  }

  /** Two examples: only the first ".pdf" goes, and the match is case-sensitive. */
  lemma DefaultNameExamples()
    ensures DefaultName("a.pdf.pdf") == "a.pdf"
    ensures DefaultName("A.PDF") == "A.PDF"
  {
    assert "a.pdf.pdf"[1..5] == ".pdf";
    assert OccursAt(".pdf", "a.pdf.pdf", 1);
    assert FirstOccurrence(".pdf", "a.pdf.pdf", 1) by {
      assert "a.pdf.pdf"[0] != '.';
    }
    assert forall j: nat :: !OccursAt(".pdf", "A.PDF", j) by {
      forall j: nat ensures !OccursAt(".pdf", "A.PDF", j) {
        if j + 4 <= 5 {
          assert "A.PDF"[j + 1] != 'p';
        }
      }
    }
  }

  /** Taking a file from a drop or the file picker: only a PDF is accepted;
      otherwise an error is shown and the form is left as it was. Accepting
      fills in the name only when it is still empty. */
  function AcceptFile(u: UploadForm, candidate: Option<PickedFile>): (s: Step)
    ensures s.error.None? <==> candidate.Some? && candidate.value.mime == PdfMime
    ensures s.error.Some? ==> s.form == u && s.error == Some(NotPdfMessage)
    ensures s.error.None? ==> s.form.file == candidate && s.form.dragging == u.dragging
    ensures u.name != "" ==> s.form.name == u.name
    ensures s.error.None? && u.name == "" ==> s.form.name == DefaultName(candidate.value.name)
  {
    match candidate
    case Some(f) =>
      if f.mime == PdfMime then
        Step(u.(file := Some(f), name := if u.name == "" then DefaultName(f.name) else u.name), None)
      else Step(u, Some(NotPdfMessage))
    case None => Step(u, Some(NotPdfMessage))
  }

  /** The first of the handed-over files, if any. */
  function FirstFile(files: seq<PickedFile>): Option<PickedFile> {
    if |files| > 0 then Some(files[0]) else None
  }

  function DragOver(u: UploadForm): (r: UploadForm)
    ensures r.dragging && r.file == u.file && r.name == u.name
  {
    u.(dragging := true)
  }

  function DragLeave(u: UploadForm): (r: UploadForm)
    ensures !r.dragging && r.file == u.file && r.name == u.name
  {
    u.(dragging := false)
  }

  /** A drop always ends the drag, then takes the first dropped file. */
  function Drop(u: UploadForm, files: seq<PickedFile>): (s: Step)
    ensures !s.form.dragging
    ensures s.error.None? <==> |files| > 0 && files[0].mime == PdfMime
    ensures s.error.Some? ==> s.form == u.(dragging := false)
    ensures s.error.None? ==>
      s.form.file == Some(files[0]) && s.form.name == (if u.name == "" then DefaultName(files[0].name) else u.name)
  {
    AcceptFile(u.(dragging := false), FirstFile(files))
  }

  /** The events the drop zone reacts to. */
  datatype DragEvent = Over | Leave | Dropped(files: seq<PickedFile>)

  /** The form after one drop-zone event. */
  function OnDragEvent(u: UploadForm, ev: DragEvent): UploadForm {
    match ev
    case Over => DragOver(u)
    case Leave => DragLeave(u)
    case Dropped(files) => Drop(u, files).form
  }

  /** The form after a run of drop-zone events, in order. */
  function OnDragEvents(u: UploadForm, events: seq<DragEvent>): UploadForm
    decreases |events|
  {
    if |events| == 0 then u else OnDragEvents(OnDragEvent(u, events[0]), events[1..])
  }

  /** The drag flag is a two-state machine: after any run of events it is set
      exactly when the last event was a dragover. */
  lemma {:induction false} DraggingTracksLastEvent(u: UploadForm, events: seq<DragEvent>)
    requires |events| > 0
    ensures OnDragEvents(u, events).dragging <==> events[|events| - 1].Over?
    decreases |events|
  {
    if |events| > 1 {
      DraggingTracksLastEvent(OnDragEvent(u, events[0]), events[1..]);
      assert events[1..][|events[1..]| - 1] == events[|events| - 1];
    }
  }

  /** Choosing a file with the picker takes the first chosen file. */
  function FileChange(u: UploadForm, files: seq<PickedFile>): (s: Step)
    ensures s.form.dragging == u.dragging
    ensures s.error.None? <==> |files| > 0 && files[0].mime == PdfMime
    ensures s.error.Some? ==> s.form == u
    ensures s.error.None? ==>
      s.form.file == Some(files[0]) && s.form.name == (if u.name == "" then DefaultName(files[0].name) else u.name)
  {
    AcceptFile(u, FirstFile(files))
  }

  /** The remove button clears the chosen file and keeps the name. */
  function RemoveFile(u: UploadForm): (r: UploadForm)
    ensures r.file.None? && r.name == u.name && r.dragging == u.dragging
  {
    u.(file := None)
  }

  /** Typing in the name input. */
  function SetName(u: UploadForm, name: string): (r: UploadForm)
    ensures r.name == name && r.file == u.file && r.dragging == u.dragging
  {
    u.(name := name)
  }

  /** The extension used for the stored object: the last piece of the file
      name split at ".", which is the whole name when it has no ".". */
  function Extension(fileName: string): (r: string)
    ensures '.' !in r
    ensures |r| <= |fileName| && r == fileName[|fileName| - |r|..]
    ensures '.' in fileName ==> |r| < |fileName| && fileName[|fileName| - |r| - 1] == '.'
    ensures '.' !in fileName ==> r == fileName
  {
    AfterLast(fileName, '.')
  }

  /** Submitting: nothing happens unless a file is chosen and the name is
      non-empty; otherwise the object is stored as "<stem>.<extension>",
      `stem` being the text of a random number. */
  function StorageObjectName(u: UploadForm, stem: string): (r: Option<string>)
    ensures r.Some? <==> u.file.Some? && u.name != ""
    ensures r.Some? ==> r.value == stem + "." + Extension(u.file.value.name)
  {
    if u.file.Some? && u.name != "" then Some(stem + "." + Extension(u.file.value.name)) else None
  }
}
