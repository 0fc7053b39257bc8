/** The PDF field-overlay editor: an ordered list of fields placed on the
    pages of one template, an optional selected field id, an "editing" flag
    (the edit panel is open), the current page and the page count. Every
    handler is a pure transition on that state; `viewOnly` is a parameter. */
module PdfViewer {
  import opened Wrappers
  import opened Types
  import opened Strings
  import Seqs
  import FieldStore

  const NewFieldName := "New Field"
  const NewFieldWidth := 100
  const NewFieldHeight := 20

  datatype Editor = Editor(
    fields: seq<Field>,
    selected: Option<string>,
    editing: bool,
    page: int,
    numPages: int)

  /** The state when the viewer mounts: no fields, nothing selected, page 1 of 0. */
  const InitialEditor := Editor([], None, false, 1, 0)

  /** The set of ids carried by `fs`. */
  function Ids(fs: seq<Field>): set<string> {
    set i | 0 <= i < |fs| :: fs[i].id
  }

  /** No two fields share an id. */
  predicate DistinctIds(fs: seq<Field>) {
    forall i, j :: 0 <= i < j < |fs| ==> fs[i].id != fs[j].id
  }

  /** The field a click at (`x`, `y`) creates on `page`. */
  function NewField(id: string, x: int, y: int, page: int): Field {
    Field(id, NewFieldName, Editable, None, x, y, NewFieldWidth, NewFieldHeight, page)
  }

  /** A click on the page surface. `id` is the freshly drawn random id and
      (`x`, `y`) the click position relative to the container. In view-only
      mode nothing happens. Otherwise the new field is appended, selected and
      the edit panel opened. */
  function PlaceField(e: Editor, viewOnly: bool, id: string, x: int, y: int): (r: Editor)
    ensures viewOnly ==> r == e
    ensures !viewOnly ==>
      && |r.fields| == |e.fields| + 1
      && r.fields[..|e.fields|] == e.fields
      && r.fields[|e.fields|] == Field(id, "New Field", Editable, None, x, y, 100, 20, e.page)
      && r.selected == Some(id)
      && r.editing
      && r.page == e.page && r.numPages == e.numPages
  {
    if viewOnly then e
    else
      var f := NewField(id, x, y, e.page);
      assert (e.fields + [f])[..|e.fields|] == e.fields;
      e.(fields := e.fields + [f], selected := Some(id), editing := true)
  }

  /** Placing keeps ids distinct exactly when the ids were distinct before and
      the supplied id is fresh: nothing in the editor checks the random id. */
  lemma PlaceFieldDistinct(e: Editor, id: string, x: int, y: int)
    ensures DistinctIds(PlaceField(e, false, id, x, y).fields) <==> DistinctIds(e.fields) && id !in Ids(e.fields)
  {
  }

  /** A click on an existing field: select it by id and open the edit panel. */
  function SelectField(e: Editor, viewOnly: bool, id: string): (r: Editor)
    ensures viewOnly ==> r == e
    ensures !viewOnly ==> r.selected == Some(id) && r.editing
    ensures r.fields == e.fields && r.page == e.page && r.numPages == e.numPages
  {
    if viewOnly then e
    else e.(selected := Some(id), editing := true)
  }

  /** Where a click lands: on the page surface, on a rendered field, or on the
      delete button of the field's edit panel. */
  datatype Click = OnSurface(x: int, y: int, freshId: string) | OnField(id: string) | OnDeleteButton(id: string)

  /** The edit panel, and with it the delete button, is drawn inside a field
      only while that field is selected for editing outside view-only mode. */
  predicate PanelShown(e: Editor, viewOnly: bool, id: string) {
    !viewOnly && e.selected == Some(id) && e.editing && id in Ids(e.fields)
  }

  /** Dispatches a click. A click on a field is stopped at the field, so it
      never also places a field; in view-only mode the field handler returns
      early and the surface has no handler at all. The delete button does not
      stop its click, so it bubbles to the enclosing field: the delete runs
      first and the field's select runs after it, and since both read the same
      render's state the selection ends on the deleted id with editing on. */
  function HandleClick(e: Editor, viewOnly: bool, c: Click): (r: Editor)
    ensures c.OnField? ==> r.fields == e.fields
    ensures viewOnly ==> r == e
    ensures r.page == e.page && r.numPages == e.numPages
    ensures !viewOnly && c.OnSurface? ==> |r.fields| == |e.fields| + 1 && r.selected == Some(c.freshId)
    ensures !viewOnly && c.OnField? ==> r.selected == Some(c.id)
    ensures c.OnDeleteButton? && !PanelShown(e, viewOnly, c.id) ==> r == e
    ensures c.OnDeleteButton? && PanelShown(e, viewOnly, c.id) ==>
      c.id !in Ids(r.fields) && r.selected == Some(c.id) && r.editing
      && (forall i :: 0 <= i < |e.fields| && e.fields[i].id != c.id ==> e.fields[i] in r.fields)
      && (forall i :: 0 <= i < |r.fields| ==> r.fields[i] in e.fields)
  {
    match c
    case OnSurface(x, y, id) => PlaceField(e, viewOnly, id, x, y)
    case OnField(id) => SelectField(e, viewOnly, id)
    case OnDeleteButton(id) =>
      if PanelShown(e, viewOnly, id) then SelectField(DeleteField(e, id), viewOnly, id) else e
  }

  /** After the delete button's click the editor keeps a selection naming a
      field that no longer exists, and the edit panel it would open is drawn
      for no field; a delete that did not bubble would leave nothing selected. */
  lemma DeleteButtonLeavesDanglingSelection(e: Editor, id: string)
    requires PanelShown(e, false, id)
    ensures var r := HandleClick(e, false, OnDeleteButton(id));
      r.selected.Some? && r.selected.value !in Ids(r.fields) && r.editing
    ensures DeleteField(e, id).selected.None?
  {
  }

  /** Places one field per click, in order. */
  function PlaceAll(e: Editor, clicks: seq<(string, int, int)>): Editor
    decreases |clicks|
  {
    if |clicks| == 0 then e
    else PlaceAll(PlaceField(e, false, clicks[0].0, clicks[0].1, clicks[0].2), clicks[1..])
  }

  /** A run of placements adds exactly one field per click, and keeps ids
      distinct when the supplied ids are fresh and pairwise distinct. */
  lemma {:induction false} PlaceAllCount(e: Editor, clicks: seq<(string, int, int)>)
    ensures |PlaceAll(e, clicks).fields| == |e.fields| + |clicks|
    ensures PlaceAll(e, clicks).fields[..|e.fields|] == e.fields
    ensures DistinctIds(e.fields)
      && (forall i :: 0 <= i < |clicks| ==> clicks[i].0 !in Ids(e.fields))
      && (forall i, j :: 0 <= i < j < |clicks| ==> clicks[i].0 != clicks[j].0)
      ==> DistinctIds(PlaceAll(e, clicks).fields)
    decreases |clicks|
  {
    if |clicks| > 0 {
      var c := clicks[0];
      var e1 := PlaceField(e, false, c.0, c.1, c.2);
      PlaceAllCount(e1, clicks[1..]);
      PlaceFieldDistinct(e, c.0, c.1, c.2);
      assert PlaceAll(e, clicks).fields[..|e.fields|] == e1.fields[..|e1.fields|][..|e.fields|];
      if DistinctIds(e.fields)
        && (forall i :: 0 <= i < |clicks| ==> clicks[i].0 !in Ids(e.fields))
        && (forall i, j :: 0 <= i < j < |clicks| ==> clicks[i].0 != clicks[j].0)
      {
        assert Ids(e1.fields) == Ids(e.fields) + {c.0} by {
          forall s | s in Ids(e1.fields) ensures s in Ids(e.fields) + {c.0} {
            var i :| 0 <= i < |e1.fields| && e1.fields[i].id == s;
            if i < |e.fields| { assert e1.fields[i] == e.fields[i]; }
          }
          forall s | s in Ids(e.fields) ensures s in Ids(e1.fields) {
            var i :| 0 <= i < |e.fields| && e.fields[i].id == s;
            assert e1.fields[i] == e.fields[i];
          }
          assert e1.fields[|e.fields|].id == c.0;
        }
        forall i | 0 <= i < |clicks[1..]| ensures clicks[1..][i].0 !in Ids(e1.fields) {
          assert clicks[1..][i] == clicks[i + 1];
        }
      }
    }
  }

  /** The two attributes the edit panel changes. */
  datatype FieldEdit = Rename(name: string) | Retype(kind: FieldKind)

  /** Applies one edit to a field: only the named attribute changes. */
  function ApplyEdit(f: Field, edit: FieldEdit): (g: Field)
    ensures g.id == f.id && g.value == f.value
    ensures g.x == f.x && g.y == f.y && g.width == f.width && g.height == f.height && g.page == f.page
    ensures edit.Rename? ==> g.name == edit.name && g.kind == f.kind
    ensures edit.Retype? ==> g.kind == edit.kind && g.name == f.name
  {
    match edit
    case Rename(n) => f.(name := n)
    case Retype(k) => f.(kind := k)
  }

  /** Applies `edit` to every field whose id is `id`. */
  function UpdateFields(fs: seq<Field>, id: string, edit: FieldEdit): (r: seq<Field>)
    ensures |r| == |fs|
    ensures forall i :: 0 <= i < |fs| && fs[i].id != id ==> r[i] == fs[i]
    ensures forall i :: 0 <= i < |fs| && fs[i].id == id ==> r[i] == ApplyEdit(fs[i], edit)
  {
    if |fs| == 0 then []
    else [if fs[0].id == id then ApplyEdit(fs[0], edit) else fs[0]] + UpdateFields(fs[1..], id, edit)
  }

  /** A change in the edit panel: updates the matching fields, nothing else. */
  function UpdateField(e: Editor, id: string, edit: FieldEdit): (r: Editor)
    ensures r.selected == e.selected && r.editing == e.editing
    ensures r.page == e.page && r.numPages == e.numPages
    ensures |r.fields| == |e.fields|
    ensures forall i :: 0 <= i < |e.fields| ==> r.fields[i].id == e.fields[i].id
  {
    e.(fields := UpdateFields(e.fields, id, edit))
  }

  /** An update for an id no field carries leaves the list unchanged. */
  lemma UpdateUnknownId(fs: seq<Field>, id: string, edit: FieldEdit)
    requires id !in Ids(fs)
    ensures UpdateFields(fs, id, edit) == fs
  {
  }

  /** The first field with id `id`, if any. */
  function FindField(fs: seq<Field>, id: string): (r: Option<Field>)
    ensures r.Some? <==> id in Ids(fs)
    ensures r.Some? ==> r.value in fs && r.value.id == id
  {
    if |fs| == 0 then None
    else if fs[0].id == id then Some(fs[0])
    else
      var r := FindField(fs[1..], id);
      assert Ids(fs) == {fs[0].id} + Ids(fs[1..]) by {
        forall s | s in Ids(fs) ensures s in {fs[0].id} + Ids(fs[1..]) {
          var i :| 0 <= i < |fs| && fs[i].id == s;
          if i > 0 { assert fs[1..][i - 1] == fs[i]; }
        }
        forall s | s in Ids(fs[1..]) ensures s in Ids(fs) {
          var i :| 0 <= i < |fs[1..]| && fs[1..][i].id == s;
          assert fs[i + 1] == fs[1..][i];
        }
      }
      r
  }

  /** Retyping a field to prefilled and reading it back gives a prefilled
      field with the same name and geometry. */
  lemma {:induction false} RetypeReadBack(fs: seq<Field>, id: string, k: FieldKind)
    requires id in Ids(fs)
    ensures var g := FindField(UpdateFields(fs, id, Retype(k)), id);
      var f := FindField(fs, id);
      g.Some? && f.Some? && g.value == f.value.(kind := k)
  {
    if fs[0].id != id {
      var r := UpdateFields(fs, id, Retype(k));
      assert r[1..] == UpdateFields(fs[1..], id, Retype(k));
      assert id in Ids(fs[1..]) by {
        var i :| 0 <= i < |fs| && fs[i].id == id;
        assert fs[1..][i - 1] == fs[i];
      }
      RetypeReadBack(fs[1..], id, k);
    }
  }

  /** The fields left after removing every field with id `id`. */
  function RemoveFields(fs: seq<Field>, id: string): seq<Field> {
    Seqs.Filter(fs, (f: Field) => f.id != id)
  }

  /** The delete button: removes every field with that id, keeping the rest in
      order, and clears the selection and the edit flag whichever field was selected. */
  function DeleteField(e: Editor, id: string): (r: Editor)
    ensures id !in Ids(r.fields)
    ensures forall i :: 0 <= i < |e.fields| && e.fields[i].id != id ==> e.fields[i] in r.fields
    ensures forall i :: 0 <= i < |r.fields| ==> r.fields[i] in e.fields
    ensures r.selected == None && !r.editing
    ensures r.page == e.page && r.numPages == e.numPages
  {
    e.(fields := RemoveFields(e.fields, id), selected := None, editing := false)
  }

  /** Removal keeps order: removing from a concatenation removes from each part. */
  lemma RemoveFieldsAppend(a: seq<Field>, b: seq<Field>, id: string)
    ensures RemoveFields(a + b, id) == RemoveFields(a, id) + RemoveFields(b, id)
  {
    Seqs.FilterAppend(a, b, (f: Field) => f.id != id);
  }

  /** Removing an id no field carries leaves the list unchanged. */
  lemma RemoveUnknownId(fs: seq<Field>, id: string)
    requires id !in Ids(fs)
    ensures RemoveFields(fs, id) == fs
  {
    forall i | 0 <= i < |fs| ensures fs[i].id != id {
      assert fs[i].id in Ids(fs);
    }
    Seqs.FilterKeepsAll(fs, (f: Field) => f.id != id);
  }

  /** A page change takes effect only for a page between 1 and the page count. */
  function ChangePage(e: Editor, newPage: int): (r: Editor)
    ensures 1 <= newPage <= e.numPages ==> r.page == newPage
    ensures !(1 <= newPage <= e.numPages) ==> r == e
    ensures r.fields == e.fields && r.selected == e.selected && r.editing == e.editing
    ensures r.numPages == e.numPages
  {
    if 1 <= newPage && newPage <= e.numPages then e.(page := newPage) else e
  }

  /** "Previous" at page 1 and "Next" at the last page change nothing, and a
      page already in range stays in range whatever page is asked for. */
  lemma PageBoundaries(e: Editor, newPage: int)
    ensures e.page == 1 ==> ChangePage(e, e.page - 1) == e
    ensures e.page == e.numPages ==> ChangePage(e, e.page + 1) == e
    ensures 1 <= e.page <= e.numPages ==> 1 <= ChangePage(e, newPage).page <= e.numPages
  {
  }

  /** The renderer reported the document's page count. */
  function DocumentLoaded(e: Editor, n: int): (r: Editor)
    ensures r.numPages == n && r.page == e.page && r.fields == e.fields
    ensures r.selected == e.selected && r.editing == e.editing
  {
    e.(numPages := n)
  }

  /** Loading a template's fields: on success the list becomes the returned
      rows (a null result becomes the empty list); on failure it is unchanged. */
  function LoadFields(e: Editor, reply: FieldStore.LoadReply): (r: Editor)
    ensures reply.Rows? && reply.data.Some? ==> r.fields == reply.data.value
    ensures reply.Rows? && reply.data.None? ==> r.fields == []
    ensures reply.LoadFailed? ==> r == e
    ensures r.selected == e.selected && r.editing == e.editing && r.page == e.page
    ensures r.numPages == e.numPages
  {
    match reply
    case Rows(data) => e.(fields := match data case Some(fs) => fs case None => [])
    case LoadFailed(_) => e
  }

  /** The save button: replace the template's stored rows by the editor's fields. */
  function SaveEditor(e: Editor, t: FieldStore.Table, tid: string, deleteReply: FieldStore.Reply, insertReply: FieldStore.Reply): FieldStore.Saved {
    FieldStore.SaveFields(t, tid, e.fields, deleteReply, insertReply)
  }

  /** A successful save followed by a load returns exactly the saved fields, in order. */
  lemma SaveLoadRoundTrip(e: Editor, other: Editor, t: FieldStore.Table, tid: string)
    ensures var s := SaveEditor(e, t, tid, FieldStore.Accepted, FieldStore.Accepted);
      s.result.Success? && LoadFields(other, FieldStore.FetchFields(s.table, tid)).fields == e.fields
  {
  }

  /** When the delete succeeds but the insert fails, the template has no rows
      left: the fields stored before are lost. */
  lemma SavePartialFailureLosesRows(e: Editor, t: FieldStore.Table, tid: string, message: string)
    ensures var s := SaveEditor(e, t, tid, FieldStore.Accepted, FieldStore.Rejected(message));
      s.result.Failure? && FieldStore.SelectFields(s.table, tid) == []
  {
  }

  /** A deleted field is never brought back by a later save that got past its delete. */
  lemma DeleteThenSaveNoResurrect(e: Editor, id: string, t: FieldStore.Table, tid: string, insertReply: FieldStore.Reply)
    ensures var s := SaveEditor(DeleteField(e, id), t, tid, FieldStore.Accepted, insertReply);
      forall i :: 0 <= i < |s.table| && s.table[i].templateId == tid ==> s.table[i].field.id != id
  {
  }

  /** Why a template's stored file cannot be located. */
  datatype UrlError = MissingFileUrl | InvalidFileUrl

  /** The storage bucket prefix that precedes the object path in a public URL. */
  const BucketMarker := "pdf-templates/"

  /** The characters a regular-expression `.` does not match. */
  predicate IsLineTerminator(c: char) {
    c == '\n' || c == '\r' || c == '\U{2028}' || c == '\U{2029}'
  }

  /** The pattern `pdf-templates\/(.+)$` matches `url` at index `i`: the marker
      is there and the rest is non-empty with no line terminator in it. */
  predicate CapturesAt(url: string, i: nat) {
    && OccursAt(BucketMarker, url, i)
    && i + |BucketMarker| < |url|
    && forall k :: i + |BucketMarker| <= k < |url| ==> !IsLineTerminator(url[k])
  }

  /** The leftmost index at or after `from` where the pattern matches. */
  function FirstCapture(url: string, from: nat): (r: Option<nat>)
    decreases |url| - from
    ensures r.Some? ==> from <= r.value && CapturesAt(url, r.value)
    ensures r.Some? ==> forall j: nat :: from <= j < r.value ==> !CapturesAt(url, j)
    ensures r.None? ==> forall j: nat :: from <= j ==> !CapturesAt(url, j)
  {
    if from + |BucketMarker| >= |url| then None
    else if CapturesAt(url, from) then Some(from)
    else FirstCapture(url, from + 1)
  }

  /** The object path inside the bucket, taken from a template's public file
      URL: an empty URL and a URL the pattern does not match are errors. */
  function ExtractFilePath(fileUrl: string): (r: Result<string, UrlError>)
    ensures fileUrl == "" <==> r == Failure(MissingFileUrl)
    ensures r.Success? ==> r.value != "" && forall k :: 0 <= k < |r.value| ==> !IsLineTerminator(r.value[k])
    ensures r.Success? ==> exists i: nat :: FirstCaptureIs(fileUrl, i) && r.value == fileUrl[i + |BucketMarker|..]
    ensures r == Failure(InvalidFileUrl) <==> fileUrl != "" && forall i: nat :: !CapturesAt(fileUrl, i)
  {
    if fileUrl == "" then Failure(MissingFileUrl)
    else match FirstCapture(fileUrl, 0)
      case None => Failure(InvalidFileUrl)
      case Some(i) =>
        var p := fileUrl[i + |BucketMarker|..];
        assert forall k :: 0 <= k < |p| ==> p[k] == fileUrl[i + |BucketMarker| + k];
        assert FirstCaptureIs(fileUrl, i);
        Success(p)
  }

  /** `i` is the leftmost index where the pattern matches. */
  predicate FirstCaptureIs(url: string, i: nat) {
    CapturesAt(url, i) && forall j: nat :: j < i ==> !CapturesAt(url, j)
  }

  /** Without line terminators the pattern reduces to: the text after the
      first occurrence of the marker, an error when the marker is absent or
      nothing follows it. */
  lemma ExtractFilePathPlain(fileUrl: string)
    requires fileUrl != ""
    requires forall k :: 0 <= k < |fileUrl| ==> !IsLineTerminator(fileUrl[k])
    ensures FindFirst(BucketMarker, fileUrl).None? ==> ExtractFilePath(fileUrl) == Failure(InvalidFileUrl)
    ensures forall i: nat :: FirstOccurrence(BucketMarker, fileUrl, i) ==>
      ExtractFilePath(fileUrl) ==
        (if i + |BucketMarker| == |fileUrl| then Failure(InvalidFileUrl) else Success(fileUrl[i + |BucketMarker|..]))
  {
    forall i: nat | FirstOccurrence(BucketMarker, fileUrl, i)
      ensures ExtractFilePath(fileUrl) ==
        (if i + |BucketMarker| == |fileUrl| then Failure(InvalidFileUrl) else Success(fileUrl[i + |BucketMarker|..]))
    {
      if i + |BucketMarker| == |fileUrl| {
        forall j: nat ensures !CapturesAt(fileUrl, j) {
          if j < i {
            assert !OccursAt(BucketMarker, fileUrl, j);
          }
        }
      } else {
        assert CapturesAt(fileUrl, i);
        forall j: nat | j < i ensures !CapturesAt(fileUrl, j) {
          assert !OccursAt(BucketMarker, fileUrl, j);
        }
        var c := FirstCapture(fileUrl, 0);
        assert c.Some?;
        assert !(c.value < i) && !(i < c.value);
      }
    }
  }
}
