/** The question-list report generator: an ordered list of numbered
    questions, answers keyed by question id, the admin-only settings panel,
    and the layout of the generated one-page report. */
module FormGenerator {
  import opened Wrappers
  import opened Types
  import opened Strings
  import Seqs

  datatype Question = Question(id: int, text: string)

  /** One text line drawn on the report page. */
  datatype DrawText = DrawText(text: string, x: int, y: int, size: int)

  /** The generated document: a single page of the given size and its lines. */
  datatype Report = Report(width: int, height: int, lines: seq<DrawText>)

  const InitialQuestions := [Question(1, "Question 1"), Question(2, "Question 2")]

  const PageWidth := 600
  const PageHeight := 400
  const LineX := 50
  const FirstLineY := 350
  const LineStep := 20
  const FontSize := 12
  const MissingAnswer := "N/A"
  const NoUserMessage := "User ID not found. Please refresh the page."

  /** The largest id in a non-empty list. */
  function MaxId(qs: seq<Question>): (m: int)
    requires |qs| > 0
    ensures forall i :: 0 <= i < |qs| ==> qs[i].id <= m
    ensures exists i :: 0 <= i < |qs| && qs[i].id == m
  {
    if |qs| == 1 then qs[0].id
    else
      var rest := MaxId(qs[1..]);
      assert forall i :: 1 <= i < |qs| ==> qs[i] == qs[1..][i - 1];
      if qs[0].id >= rest then qs[0].id else rest
  }

  /** The id of the next question: one more than the largest id, or 1 when
      the list is empty. */
  function NextQuestionId(qs: seq<Question>): (n: int)
    ensures forall i :: 0 <= i < |qs| ==> qs[i].id < n
    ensures |qs| == 0 ==> n == 1
    ensures |qs| > 0 ==> exists i :: 0 <= i < |qs| && qs[i].id == n - 1
  {
    if |qs| > 0 then MaxId(qs) + 1 else 1
  }

  /** No two questions share an id. */
  predicate DistinctIds(qs: seq<Question>) {
    forall i, j :: 0 <= i < j < |qs| ==> qs[i].id != qs[j].id
  }

  /** "Add Question": appends a question with a fresh id labelled "Question <id>". */
  function AddQuestion(qs: seq<Question>): (r: seq<Question>)
    ensures |r| == |qs| + 1 && r[..|qs|] == qs
    ensures forall i :: 0 <= i < |qs| ==> qs[i].id < r[|qs|].id
    ensures r[|qs|].text == "Question " + IntToDecimal(r[|qs|].id)
    ensures DistinctIds(qs) ==> DistinctIds(r)
  {
    var n := NextQuestionId(qs);
    assert (qs + [Question(n, "Question " + IntToDecimal(n))])[..|qs|] == qs;
    qs + [Question(n, "Question " + IntToDecimal(n))]
  }

  /** Editing a question's text in the settings panel. */
  function RenameQuestion(qs: seq<Question>, id: int, text: string): (r: seq<Question>)
    ensures |r| == |qs|
    ensures forall i :: 0 <= i < |qs| ==> r[i].id == qs[i].id
    ensures forall i :: 0 <= i < |qs| ==> r[i].text == (if qs[i].id == id then text else qs[i].text)
  {
    if |qs| == 0 then []
    else [if qs[0].id == id then qs[0].(text := text) else qs[0]] + RenameQuestion(qs[1..], id, text)
  }

  /** "Remove": drops the question with that id, keeping the others in order. */
  function RemoveQuestion(qs: seq<Question>, id: int): (r: seq<Question>)
    ensures forall i :: 0 <= i < |r| ==> r[i].id != id && r[i] in qs
    ensures forall i :: 0 <= i < |qs| && qs[i].id != id ==> qs[i] in r
  {
    Seqs.Filter(qs, (q: Question) => q.id != id)
  }

  /** Removal keeps order: removing from a concatenation removes from each part. */
  lemma RemoveQuestionAppend(a: seq<Question>, b: seq<Question>, id: int)
    ensures RemoveQuestion(a + b, id) == RemoveQuestion(a, id) + RemoveQuestion(b, id)
  {
    Seqs.FilterAppend(a, b, (q: Question) => q.id != id);
  }

  /** Typing an answer: records it under the question id, nothing else changes. */
  function SetAnswer(answers: map<int, string>, id: int, value: string): (r: map<int, string>)
    ensures id in r && r[id] == value
    ensures forall k :: k in answers && k != id ==> k in r && r[k] == answers[k]
    ensures r.Keys == answers.Keys + {id}
  {
    answers[id := value]
  }

  /** The answer printed for a question: the recorded answer when it is
      present and non-empty, "N/A" otherwise. */
  function AnswerText(answers: map<int, string>, id: int): (a: string)
    ensures id in answers && answers[id] != "" ==> a == answers[id]
    ensures id !in answers || answers[id] == "" ==> a == MissingAnswer
  {
    if id in answers && answers[id] != "" then answers[id] else MissingAnswer
  }

  /** The text of a question's report line. */
  function LineText(q: Question, answers: map<int, string>): string {
    q.text + ": " + AnswerText(answers, q.id)
  }

  /** "Generate Report": with no signed-in user nothing is produced and an
      error is reported; otherwise one 600x400 page with one line per
      question, in list order, the i-th at x = 50, y = 350 - 20 i, size 12. */
  method GenerateReport(userId: Option<string>, qs: seq<Question>, answers: map<int, string>)
    returns (r: Result<Report, string>)
    ensures userId.None? || userId == Some("") <==> r == Failure(NoUserMessage)
    ensures r.Success? <==> userId.Some? && userId != Some("")
    ensures r.Success? ==> r.value.width == 600 && r.value.height == 400
    ensures r.Success? ==> |r.value.lines| == |qs|
    ensures r.Success? ==> forall i :: 0 <= i < |qs| ==>
      r.value.lines[i] == DrawText(LineText(qs[i], answers), 50, 350 - 20 * i, 12)
  {
    if userId.None? || userId == Some("") {
      return Failure(NoUserMessage);
    }
    var lines: seq<DrawText> := [];
    var yOffset := FirstLineY;
    var k := 0;
    while k < |qs|
      invariant 0 <= k <= |qs|
      invariant |lines| == k
      invariant yOffset == FirstLineY - LineStep * k
      invariant forall i :: 0 <= i < k ==>
        lines[i] == DrawText(LineText(qs[i], answers), LineX, FirstLineY - LineStep * i, FontSize)
    {
      var q := qs[k];
      lines := lines + [DrawText(q.text + ": " + AnswerText(answers, q.id), LineX, yOffset, FontSize)];
      yOffset := yOffset - LineStep;
      k := k + 1;
    }
    r := Success(Report(PageWidth, PageHeight, lines));
  }

  /** Removing a question does not erase its answer, so when the removed
      question had the largest id, the next added question reuses that id and
      its report line shows the old answer. */
  lemma StaleAnswerReused(answers: map<int, string>, a: string)
    requires a != ""
    ensures var qs := AddQuestion(RemoveQuestion(InitialQuestions, 2));
      var ans := SetAnswer(answers, 2, a);
      |qs| == 2 && qs[1] == Question(2, "Question 2") && LineText(qs[1], ans) == "Question 2: " + a
  {
    var kept := RemoveQuestion(InitialQuestions, 2);
    RemoveQuestionAppend([InitialQuestions[0]], [InitialQuestions[1]], 2);
    assert InitialQuestions == [InitialQuestions[0]] + [InitialQuestions[1]];
    assert kept == [Question(1, "Question 1")];
    assert NextQuestionId(kept) == 2;
    assert IntToDecimal(2) == "2";
  }

  /** The role check made after sign-in: a profile role equal to exactly
      "admin" grants admin status. */
  function IsAdminRole(role: Option<string>): (b: bool)
    ensures b <==> role.Some? && ParseRole(role.value) == Some(Admin)
  {
    role == Some("admin")
  }

  /** The profile lookup's outcome: a row (whose role may be null), an error
      result, or a thrown exception. */
  datatype ProfileReply = Profile(role: Option<string>) | QueryError(message: string) | Thrown(message: string)

  /** Updating the admin flag from the profile lookup. Without a user id no
      lookup is made; an error result leaves the flag as it was; an exception
      clears it. */
  function CheckAdminStatus(isAdmin: bool, userId: Option<string>, reply: ProfileReply): (b: bool)
    ensures userId.None? || userId == Some("") ==> b == isAdmin
    ensures b && !isAdmin ==> reply.Profile? && reply.role == Some("admin")
    ensures userId.Some? && userId != Some("") && reply.Profile? ==> b == IsAdminRole(reply.role)
    ensures reply.Thrown? && userId.Some? && userId != Some("") ==> !b
    ensures reply.QueryError? ==> b == isAdmin
  {
    if userId.None? || userId == Some("") then isAdmin
    else match reply
      case Profile(role) => IsAdminRole(role)
      case QueryError(_) => isAdmin
      case Thrown(_) => false
  }

  /** The settings panel is on screen only for an admin who has toggled it on. */
  function SettingsVisible(isAdmin: bool, showSettings: bool): (v: bool)
    ensures v ==> isAdmin
    ensures v <==> isAdmin && showSettings
  {
    isAdmin && showSettings
  }

  /** The settings button flips the panel flag. */
  function ToggleSettings(showSettings: bool): (s: bool)
    ensures s != showSettings
  {
    !showSettings
  }

  /** Starting from a non-admin user, the settings panel can only come on
      screen after a profile lookup for a signed-in user returned the role
      "admin"; toggling alone never shows it. */
  lemma SettingsPanelNeedsAdmin(userId: Option<string>, reply: ProfileReply, showSettings: bool)
    ensures SettingsVisible(CheckAdminStatus(false, userId, reply), showSettings) ==>
      userId.Some? && userId != Some("") && reply.Profile? && reply.role == Some("admin")
    ensures SettingsVisible(CheckAdminStatus(false, userId, reply), ToggleSettings(showSettings)) ==>
      reply.Profile? && reply.role == Some("admin")
    ensures !SettingsVisible(false, showSettings)
  {
  }

  /** Only a profile row whose role is exactly the admin role name grants admin status. */
  lemma AdminExactlyAdminRole(r: Role)
    ensures IsAdminRole(Some(RoleName(r))) <==> r == Admin
  {
  }
}
