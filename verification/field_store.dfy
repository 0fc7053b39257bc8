/** The `pdf_fields` table as an abstract in-memory sequence of rows, each a
    field tagged with the id of the template it belongs to, and the two
    operations the editor performs on it: select-by-template and the
    replace-all save (delete the template's rows, then insert the current set). */
module FieldStore {
  import opened Wrappers
  import opened Types
  import Seqs

  /** One stored row: a field and the template it belongs to. */
  datatype Row = Row(templateId: string, field: Field)

  /** The whole table. The order of rows is the order a select returns them in. */
  type Table = seq<Row>

  /** The backend's answer to one delete or insert request. */
  datatype Reply = Accepted | Rejected(message: string)

  /** What a failed save reports. */
  datatype SaveError = DeleteFailed(message: string) | InsertFailed(message: string)

  /** The table after a save, and whether the save succeeded. */
  datatype Saved = Saved(table: Table, result: Result<(), SaveError>)

  /** The fields stored for template `tid`, in table order. */
  function SelectFields(t: Table, tid: string): (fs: seq<Field>)
    ensures |fs| <= |t|
  {
    if |t| == 0 then []
    else (if t[0].templateId == tid then [t[0].field] else []) + SelectFields(t[1..], tid)
  }

  /** A field is among the selected fields exactly when the table holds a row
      pairing it with the template. */
  lemma {:induction false} SelectFieldsMembers(t: Table, tid: string, f: Field)
    ensures f in SelectFields(t, tid) <==> Row(tid, f) in t
  {
    if |t| > 0 {
      SelectFieldsMembers(t[1..], tid, f);
      assert t == [t[0]] + t[1..];
    }
  }

  /** The rows inserted for `fields`: each field tagged with `tid`. */
  function Tag(fields: seq<Field>, tid: string): (rows: seq<Row>)
    ensures |rows| == |fields|
    ensures forall i :: 0 <= i < |rows| ==> rows[i] == Row(tid, fields[i])
  {
    seq(|fields|, i requires 0 <= i < |fields| => Row(tid, fields[i]))
  }

  /** The table after deleting every row of template `tid`. */
  function DeleteTemplate(t: Table, tid: string): (r: Table)
    ensures forall i :: 0 <= i < |r| ==> r[i].templateId != tid && r[i] in t
    ensures forall i :: 0 <= i < |t| && t[i].templateId != tid ==> t[i] in r
  {
    Seqs.Filter(t, (row: Row) => row.templateId != tid)
  }

  lemma {:induction false} SelectAppend(a: Table, b: Table, tid: string)
    ensures SelectFields(a + b, tid) == SelectFields(a, tid) + SelectFields(b, tid)
  {
    if |a| == 0 {
      assert a + b == b;
    } else {
      var head := if a[0].templateId == tid then [a[0].field] else [];
      assert (a + b)[0] == a[0];
      assert (a + b)[1..] == a[1..] + b;
      assert SelectFields(a + b, tid) == head + SelectFields(a[1..] + b, tid);
      SelectAppend(a[1..], b, tid);
      assert SelectFields(a, tid) == head + SelectFields(a[1..], tid);
    }
  }

  /** Selecting the rows just tagged with `tid` gives back exactly the fields;
      selecting any other template gives nothing. */
  lemma {:induction false} SelectTag(fields: seq<Field>, tid: string, u: string)
    ensures SelectFields(Tag(fields, tid), u) == (if u == tid then fields else [])
  {
    if |fields| > 0 {
      assert Tag(fields, tid)[1..] == Tag(fields[1..], tid);
      SelectTag(fields[1..], tid, u);
    }
  }

  /** Deleting a template's rows empties its selection and leaves every other
      template's selection as it was. */
  lemma {:induction false} SelectDelete(t: Table, tid: string, u: string)
    ensures SelectFields(DeleteTemplate(t, tid), u) == (if u == tid then [] else SelectFields(t, u))
  {
    if |t| > 0 {
      var keep := (row: Row) => row.templateId != tid;
      assert t == [t[0]] + t[1..];
      Seqs.FilterAppend([t[0]], t[1..], keep);
      SelectDelete(t[1..], tid, u);
      SelectAppend(Seqs.Filter([t[0]], keep), Seqs.Filter(t[1..], keep), u);
    }
  }

  /** A template with no stored rows selects as the empty sequence. */
  lemma {:induction false} SelectNoRows(t: Table, tid: string)
    requires forall i :: 0 <= i < |t| ==> t[i].templateId != tid
    ensures SelectFields(t, tid) == []
  {
    if |t| > 0 {
      SelectNoRows(t[1..], tid);
    }
  }

  /** The replace-all save: delete the template's rows, then insert the
      current fields tagged with the template id. The two requests are
      separate: a rejected delete stops before the insert, a rejected insert
      comes after the delete has already taken effect. A single bulk insert
      either stores every row or none. */
  function SaveFields(t: Table, tid: string, fields: seq<Field>, deleteReply: Reply, insertReply: Reply): (s: Saved)
    ensures deleteReply.Rejected? ==> s.table == t && s.result == Failure(DeleteFailed(deleteReply.message))
    ensures deleteReply.Accepted? && insertReply.Accepted? ==>
      s.result.Success? && SelectFields(s.table, tid) == fields
    ensures deleteReply.Accepted? && insertReply.Rejected? ==>
      s.result == Failure(InsertFailed(insertReply.message)) && SelectFields(s.table, tid) == []
    ensures forall u :: u != tid ==> SelectFields(s.table, u) == SelectFields(t, u)
  {
    match deleteReply
    case Rejected(m) => Saved(t, Failure(DeleteFailed(m)))
    case Accepted =>
      var cleared := DeleteTemplate(t, tid);
      SelectDelete(t, tid, tid);
      assert forall u :: SelectFields(cleared, u) == (if u == tid then [] else SelectFields(t, u)) by {
        forall u ensures SelectFields(cleared, u) == (if u == tid then [] else SelectFields(t, u)) {
          SelectDelete(t, tid, u);
        }
      }
      match insertReply
      case Rejected(m) => Saved(cleared, Failure(InsertFailed(m)))
      case Accepted =>
        var stored := cleared + Tag(fields, tid);
        assert forall u :: SelectFields(stored, u) == SelectFields(cleared, u) + (if u == tid then fields else []) by {
          forall u ensures SelectFields(stored, u) == SelectFields(cleared, u) + (if u == tid then fields else []) {
            SelectAppend(cleared, Tag(fields, tid), u);
            SelectTag(fields, tid, u);
          }
        }
        Saved(stored, Success(()))
  }

  /** The backend's answer to a select of a template's rows. `data` may be null. */
  datatype LoadReply = Rows(data: Option<seq<Field>>) | LoadFailed(message: string)

  /** What a select of template `tid` returns against the table. */
  function FetchFields(t: Table, tid: string): (r: LoadReply)
    ensures r == Rows(Some(SelectFields(t, tid)))
    ensures (forall i :: 0 <= i < |t| ==> t[i].templateId != tid) ==> r.data.value == []
  {
    var fs := SelectFields(t, tid);
    assert (forall i :: 0 <= i < |t| ==> t[i].templateId != tid) ==> fs == [] by {
      if forall i :: 0 <= i < |t| ==> t[i].templateId != tid {
        SelectNoRows(t, tid);
      }
    }
    Rows(Some(fs))
  }
}
