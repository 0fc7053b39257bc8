/** The off-duty vehicle usage report: a fixed set of form entries, an
    optional captured signature, and the assignments written into the
    fillable PDF when the report is generated. */
module OffDutyReport {
  import opened Wrappers

  /** The form's entries, one per input (and the shift select). */
  datatype FormKey =
    | Badge | Date | BeginTime | EndTime | Date2 | Name | BusinessName
    | BusinessLocation | BillTo | Unit | TotalHours | HourlyRate | Rate | Shift

  datatype ReportForm = ReportForm(
    badge: string, date: string, beginTime: string, endTime: string, date2: string,
    name: string, businessName: string, businessLocation: string, billTo: string,
    unit: string, totalHours: string, hourlyRate: string, rate: string, shift: string)

  /** The form as it starts: every entry empty. */
  const EmptyForm := ReportForm("", "", "", "", "", "", "", "", "", "", "", "", "", "")

  /** The current value of one entry. */
  function Get(f: ReportForm, k: FormKey): string {
    match k
    case Badge => f.badge
    case Date => f.date
    case BeginTime => f.beginTime
    case EndTime => f.endTime
    case Date2 => f.date2
    case Name => f.name
    case BusinessName => f.businessName
    case BusinessLocation => f.businessLocation
    case BillTo => f.billTo
    case Unit => f.unit
    case TotalHours => f.totalHours
    case HourlyRate => f.hourlyRate
    case Rate => f.rate
    case Shift => f.shift
  }

  /** Every entry of the initial form is the empty string. */
  lemma EmptyFormIsEmpty(k: FormKey)
    ensures Get(EmptyForm, k) == ""
  {
  }

  /** A change event on the input named `k`: only that entry changes. */
  function HandleChange(f: ReportForm, k: FormKey, v: string): (r: ReportForm)
    ensures Get(r, k) == v
    ensures forall k' :: k' != k ==> Get(r, k') == Get(f, k')
  {
    match k
    case Badge => f.(badge := v)
    case Date => f.(date := v)
    case BeginTime => f.(beginTime := v)
    case EndTime => f.(endTime := v)
    case Date2 => f.(date2 := v)
    case Name => f.(name := v)
    case BusinessName => f.(businessName := v)
    case BusinessLocation => f.(businessLocation := v)
    case BillTo => f.(billTo := v)
    case Unit => f.(unit := v)
    case TotalHours => f.(totalHours := v)
    case HourlyRate => f.(hourlyRate := v)
    case Rate => f.(rate := v)
    case Shift => f.(shift := v)
  }

  /** The fillable PDF's text field that receives an entry; the shift has none
      (it selects a checkbox instead). */
  function PdfTextField(k: FormKey): Option<string> {
    match k
    case Badge => Some("Badge")
    case Date => Some("Date")
    case BeginTime => Some("Begin Time")
    case EndTime => Some("End Time")
    case Date2 => Some("Date_2")
    case Name => Some("Name")
    case BusinessName => Some("Business Name")
    case BusinessLocation => Some("Business Location")
    case BillTo => Some("Bill To Name & Address")
    case Unit => Some("Unit")
    case TotalHours => Some("Total Number of Hours")
    case HourlyRate => Some("Officers Hourly Rate")
    case Rate => Some("Rate")
    case Shift => None
  }

  /** The entries copied into text fields, in the order they are written. */
  const TextKeys: seq<FormKey> := [Badge, Date, BeginTime, EndTime, Date2, Name, BusinessName,
    BusinessLocation, BillTo, Unit, TotalHours, HourlyRate, Rate]

  /** Setting the text of one named PDF form field. */
  datatype TextAssignment = SetText(pdfField: string, text: string)

  /** The text assignments made to the fillable PDF: thirteen of them, each
      copying one entry into its fixed PDF field. */
  function TextAssignments(f: ReportForm): (r: seq<TextAssignment>)
    ensures |r| == 13
    ensures forall i :: 0 <= i < |r| ==>
      PdfTextField(TextKeys[i]) == Some(r[i].pdfField) && r[i].text == Get(f, TextKeys[i])
  {
    seq(|TextKeys|, i requires 0 <= i < |TextKeys| => SetText(PdfTextField(TextKeys[i]).value, Get(f, TextKeys[i])))
  }

  /** Every entry except the shift is written to exactly one text field, the
      shift to none, and no PDF field is written twice. */
  lemma TextAssignmentsCover(f: ReportForm, k: FormKey)
    ensures k == Shift <==> k !in TextKeys
    ensures forall i, j :: 0 <= i < j < |TextKeys| ==> TextKeys[i] != TextKeys[j]
    ensures forall i, j :: 0 <= i < j < 13 ==> TextAssignments(f)[i].pdfField != TextAssignments(f)[j].pdfField
  {
  }

  /** The shift entry does not reach any text field. */
  lemma ShiftNotInText(f: ReportForm, v: string)
    ensures TextAssignments(HandleChange(f, Shift, v)) == TextAssignments(f)
  {
  }

  const ShortShift := "1-4 Hours"
  const LongShift := "More than 4 hours"

  /** The checkboxes ticked for a shift value: "Check Box7" for the short
      shift, "Check Box8" for the long one, none for anything else. */
  function CheckedBoxes(shift: string): (r: seq<string>)
    ensures |r| <= 1
    ensures "Check Box7" in r <==> shift == ShortShift
    ensures "Check Box8" in r <==> shift == LongShift
    ensures shift != ShortShift && shift != LongShift ==> r == []
  {
    if shift == ShortShift then ["Check Box7"]
    else if shift == LongShift then ["Check Box8"]
    else []
  }

  /** An image drawn on a page (page index 0 is the first page). */
  datatype ImageDraw = ImageDraw(pageIndex: nat, x: int, y: int, width: int, height: int)

  /** The signature image: drawn only when a (non-empty) signature was
      captured, always in the same rectangle on the first page. */
  function SignatureDraw(signature: Option<string>): (r: Option<ImageDraw>)
    ensures r.Some? <==> signature.Some? && signature.value != ""
    ensures r.Some? ==> r.value == ImageDraw(0, 370, 60, 160, 50)
  {
    match signature
    case Some(s) => if s != "" then Some(ImageDraw(0, 370, 60, 160, 50)) else None
    case None => None
  }

  /** Everything written into the fillable PDF for one report. */
  datatype FilledReport = FilledReport(texts: seq<TextAssignment>, checks: seq<string>, signature: Option<ImageDraw>)

  function FillReport(f: ReportForm, signature: Option<string>): (r: FilledReport)
    ensures |r.texts| == 13 && |r.checks| <= 1
    ensures forall i :: 0 <= i < 13 ==>
      PdfTextField(TextKeys[i]) == Some(r.texts[i].pdfField) && r.texts[i].text == Get(f, TextKeys[i])
    ensures "Check Box7" in r.checks <==> f.shift == ShortShift
    ensures "Check Box8" in r.checks <==> f.shift == LongShift
    ensures f.shift != ShortShift && f.shift != LongShift ==> r.checks == []
    ensures r.signature.Some? <==> signature.Some? && signature.value != ""
    ensures r.signature.Some? ==> r.signature.value == ImageDraw(0, 370, 60, 160, 50)
  {
    FilledReport(TextAssignments(f), CheckedBoxes(f.shift), SignatureDraw(signature))
  }

  /** The form together with the captured signature (a data URL). */
  datatype OffDuty = OffDuty(form: ReportForm, signature: Option<string>)

  const InitialOffDuty := OffDuty(EmptyForm, None)

  /** "Clear" wipes the captured signature. */
  function ClearSignature(s: OffDuty): (r: OffDuty)
    ensures r.signature == None && r.form == s.form
    ensures FillReport(r.form, r.signature).signature.None?
  {
    s.(signature := None)
  }

  /** "Save Signature": captures the pad's image when the pad is ready. */
  function SaveSignature(s: OffDuty, padReady: bool, dataUrl: string): (r: OffDuty)
    ensures padReady ==> r.signature == Some(dataUrl)
    ensures !padReady ==> r == s
    ensures r.form == s.form
  {
    if padReady then s.(signature := Some(dataUrl)) else s
  }
}
