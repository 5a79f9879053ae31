// The admin exams page: the status column, which is derived from the exam's
// stored status and its time window, and the duration column, a minutes count
// written out in hours and minutes.

module ExamsPage {
  import opened Common
  import opened Domain

  /** The fields of one exam row the page reads. `status` is the backend's
    * numeric ExamStatus code as it arrives in the JSON list; the times are
    * instants in the same clock as `now`. */
  datatype ExamView = ExamView(
    status: int, startTime: Option<Time>, endTime: Option<Time>, durationMinutes: int)

  // ---------------------------------------------------------------------
  // Status column
  // ---------------------------------------------------------------------

  /** The page's display statuses. */
  const ShownNotStarted := 0
  const ShownRunning := 1
  const ShownFinished := 2
  const ShownCancelled := 3

  /** The label table: a label for each display status, nothing otherwise. */
  function StatusName(code: int): (r: Option<string>)
    ensures r.Some? <==> ShownNotStarted <= code <= ShownCancelled
  {
    if code == ShownNotStarted then Some("未开始")
    else if code == ShownRunning then Some("进行中")
    else if code == ShownFinished then Some("已结束")
    else if code == ShownCancelled then Some("已取消")
    else None
  }

  /** The label shown for a display status: its own, or the not-started label. */
  function DisplayLabel(code: int): (r: string)
    ensures StatusName(code).Some? ==> r == StatusName(code).value
    ensures StatusName(code).None? ==> r == StatusName(ShownNotStarted).value
  {
    match StatusName(code)
    case Some(name) => name
    case None => "未开始"
  }

  /** The exam opens in the future. */
  predicate NotYetOpen(exam: ExamView, now: Time) {
    exam.startTime.Some? && now < exam.startTime.value
  }

  /** The exam closed in the past. */
  predicate PastClose(exam: ExamView, now: Time) {
    exam.endTime.Some? && now > exam.endTime.value
  }

  /** The time-window part of the classifier: a start in the future means not
    * started, else an end in the past means finished, else a start means
    * running, else not started. */
  function WindowStatus(exam: ExamView, now: Time): (r: int)
    ensures ShownNotStarted <= r <= ShownFinished
  {
    if exam.startTime.Some? && now < exam.startTime.value then ShownNotStarted
    else if exam.endTime.Some? && now > exam.endTime.value then ShownFinished
    else if exam.startTime.Some? && now >= exam.startTime.value then ShownRunning
    else ShownNotStarted
  }

  /** The page's classifier as written: stored status 3 is shown as cancelled
    * before any time is looked at. */
  function GetExamStatus(exam: ExamView, now: Time): (r: int)
    ensures ShownNotStarted <= r <= ShownCancelled
    ensures r == ShownCancelled <==> exam.status == 3
    ensures exam.status != 3 ==> r == WindowStatus(exam, now)
  {
    if exam.status == 3 then ShownCancelled else WindowStatus(exam, now)
  }

  /** Each window status, characterised by the window alone. */
  lemma WindowStatusClassified(exam: ExamView, now: Time)
    ensures WindowStatus(exam, now) == ShownNotStarted <==>
      NotYetOpen(exam, now) || (exam.startTime.None? && !PastClose(exam, now))
    ensures WindowStatus(exam, now) == ShownRunning <==>
      exam.startTime.Some? && exam.startTime.value <= now && !PastClose(exam, now)
    ensures WindowStatus(exam, now) == ShownFinished <==>
      !NotYetOpen(exam, now) && PastClose(exam, now)
  {
  }

  /** As time passes the window status only moves forward: not started, then
    * running, then finished. */
  lemma WindowStatusMonotone(exam: ExamView, earlier: Time, later: Time)
    requires earlier <= later
    ensures WindowStatus(exam, earlier) <= WindowStatus(exam, later)
  {
  }

  /** Every status the classifier produces has its own label, so the
    * not-started fallback is never taken for it. */
  lemma ShownStatusHasLabel(exam: ExamView, now: Time)
    ensures StatusName(GetExamStatus(exam, now)).Some?
    ensures DisplayLabel(GetExamStatus(exam, now)) == StatusName(GetExamStatus(exam, now)).value
  {
  }

  /** The backend stores an ended exam as 3, so the page labels it cancelled,
    * whatever its times. */
  lemma EndedExamShownCancelled(exam: ExamView, now: Time)
    requires exam.status == ExamStatus.Ended.Code()
    ensures DisplayLabel(GetExamStatus(exam, now)) == "已取消"
  {
  }

  /** A cancelled exam (backend code 4) inside its window is labelled running
    * and is never labelled cancelled. */
  lemma CancelledExamShownRunning()
    ensures DisplayLabel(GetExamStatus(ExamView(ExamStatus.Cancelled.Code(), Some(0), None, 60), 10)) == "进行中"
  {
  }

  lemma CancelledExamNeverShownCancelled(exam: ExamView, now: Time)
    requires exam.status == ExamStatus.Cancelled.Code()
    ensures GetExamStatus(exam, now) != ShownCancelled
  {
  }

  /** The classifier with the status compared with the backend's cancelled code. */
  function GetExamStatusCorrected(exam: ExamView, now: Time): (r: int)
    ensures ShownNotStarted <= r <= ShownCancelled
  {
    if exam.status == ExamStatus.Cancelled.Code() then ShownCancelled else WindowStatus(exam, now)
  }

  /** With the correction, an exam is labelled cancelled exactly when the
    * backend says it is cancelled, and every other exam, an ended one
    * included, gets its window status. */
  lemma CorrectedShowsCancelledExactly(exam: ExamView, now: Time)
    ensures DisplayLabel(GetExamStatusCorrected(exam, now)) == "已取消" <==>
      exam.status == ExamStatus.Cancelled.Code()
    ensures exam.status != ExamStatus.Cancelled.Code() ==>
      GetExamStatusCorrected(exam, now) == WindowStatus(exam, now)
  {
  }

  /** The label in an exam row's status column. */
  function RowStatusLabel(exam: ExamView, now: Time): (r: string)
    ensures r == StatusName(GetExamStatusCorrected(exam, now)).value
  {
    DisplayLabel(GetExamStatusCorrected(exam, now))
  }

  // ---------------------------------------------------------------------
  // Duration column
  // ---------------------------------------------------------------------

  /** The JavaScript `%`: the remainder takes the sign of the dividend. */
  function TruncRem(a: int, b: int): (r: int)
    requires b > 0
    ensures a >= 0 ==> r == a % b
    ensures -b < r < b && (r == 0 || (r < 0 <==> a < 0))
  {
    if a >= 0 then a % b else -((-a) % b)
  }

  /** The duration text: whole hours with a 小时 suffix followed by the
    * remaining minutes when there are some, or only minutes when there is
    * not a positive number of whole hours. `/` by a positive divisor rounds
    * down, as `Math.floor` does. */
  function FormatDuration(minutes: int): (r: string)
    ensures |r| > 0
  {
    var hours := minutes / 60;
    var mins := TruncRem(minutes, 60);
    if hours > 0 then
      IntToString(hours) + "小时" + (if mins > 0 then IntToString(mins) + "分钟" else "")
    else
      IntToString(mins) + "分钟"
  }

  /** The two shapes of the text for a non-negative count. */
  lemma FormatDurationShape(minutes: nat)
    ensures minutes >= 60 ==> (FormatDuration(minutes) ==
      NatToString(minutes / 60) + "小时" +
      (if minutes % 60 > 0 then NatToString(minutes % 60) + "分钟" else ""))
    ensures minutes < 60 ==> FormatDuration(minutes) == NatToString(minutes) + "分钟"
  {
  }

  /** Length of the run of decimal digits at the front of `s`. */
  function DigitPrefixLength(s: string): (k: nat)
    ensures k <= |s|
    ensures forall i :: 0 <= i < k ==> IsDigit(s[i])
    ensures k < |s| ==> !IsDigit(s[k])
  {
    if |s| == 0 || !IsDigit(s[0]) then 0 else 1 + DigitPrefixLength(s[1..])
  }

  /** Reads digits followed by 分钟. */
  function ParseMinutesPart(text: string): (r: Option<nat>)
  {
    var k := DigitPrefixLength(text);
    if k > 0 && text[k..] == "分钟" then Some(DigitsValue(text[..k])) else None
  }

  /** Reads the unit part that follows a number `n`. */
  function ParseUnits(n: nat, rest: string): (r: Option<nat>)
  {
    if rest == "分钟" then Some(n)
    else if rest == "小时" then Some(60 * n)
    else if |rest| > 2 && rest[..2] == "小时" then
      match ParseMinutesPart(rest[2..])
      case Some(m) => Some(60 * n + m)
      case None => None
    else None
  }

  /** Reads a duration text back: digits then 分钟, digits then 小时, or
    * digits, 小时, digits, 分钟. */
  function ParseDuration(text: string): (r: Option<nat>)
  {
    var k := DigitPrefixLength(text);
    if k == 0 then None else ParseUnits(DigitsValue(text[..k]), text[k..])
  }

  /** The digit run at the front of a number followed by a non-digit is
    * exactly the number. */
  lemma DigitPrefixOfNumber(n: nat, tail: string)
    requires |tail| > 0 ==> !IsDigit(tail[0])
    ensures DigitPrefixLength(NatToString(n) + tail) == |NatToString(n)|
    ensures (NatToString(n) + tail)[..|NatToString(n)|] == NatToString(n)
    ensures (NatToString(n) + tail)[|NatToString(n)|..] == tail
  {
    var s := NatToString(n) + tail;
    assert forall i :: 0 <= i < |NatToString(n)| ==> s[i] == NatToString(n)[i];
    assert |tail| > 0 ==> s[|NatToString(n)|] == tail[0];
  }

  lemma ParseMinutesPartOf(m: nat)
    ensures ParseMinutesPart(NatToString(m) + "分钟") == Some(m)
  {
    DigitPrefixOfNumber(m, "分钟");
    DigitsValueOfNatToString(m);
  }

  /** A number followed by a unit part is read as that number and part. */
  lemma ParseNumberThen(n: nat, rest: string)
    requires |rest| > 0 && !IsDigit(rest[0])
    ensures ParseDuration(NatToString(n) + rest) == ParseUnits(n, rest)
  {
    DigitPrefixOfNumber(n, rest);
    DigitsValueOfNatToString(n);
  }

  lemma ParseMinutesOnly(m: nat)
    ensures ParseDuration(NatToString(m) + "分钟") == Some(m)
  {
    ParseNumberThen(m, "分钟");
  }

  lemma ParseWholeHours(h: nat)
    ensures ParseDuration(NatToString(h) + "小时") == Some(60 * h)
  {
    ParseNumberThen(h, "小时");
  }

  lemma ParseUnitsHoursThen(n: nat, after: string, m: nat)
    requires ParseMinutesPart(after) == Some(m)
    ensures ParseUnits(n, "小时" + after) == Some(60 * n + m)
  {
    var tail := "小时" + after;
    assert tail[..2] == "小时" && tail[2..] == after;
    assert |after| > 0;
    assert tail != "分钟" && tail != "小时";
  }

  lemma ParseHoursAndMinutes(h: nat, m: nat)
    ensures ParseDuration(NatToString(h) + "小时" + (NatToString(m) + "分钟")) == Some(60 * h + m)
  {
    var after := NatToString(m) + "分钟";
    assert NatToString(h) + "小时" + after == NatToString(h) + ("小时" + after);
    assert ("小时" + after)[0] == '小';
    ParseNumberThen(h, "小时" + after);
    ParseMinutesPartOf(m);
    ParseUnitsHoursThen(h, after, m);
  }

  /** Parsing the page's text for a non-negative count gives the count back. */
  lemma ParseFormattedDuration(minutes: nat)
    ensures ParseDuration(FormatDuration(minutes)) == Some(minutes)
  {
    FormatDurationShape(minutes);
    assert minutes == 60 * (minutes / 60) + minutes % 60;
    if minutes >= 60 {
      if minutes % 60 > 0 {
        ParseHoursAndMinutes(minutes / 60, minutes % 60);
      } else {
        assert FormatDuration(minutes) == NatToString(minutes / 60) + "小时";
        ParseWholeHours(minutes / 60);
      }
    } else {
      ParseMinutesOnly(minutes);
    }
  }

  /** Different non-negative counts are written differently. */
  lemma FormatDurationInjective(a: nat, b: nat)
    requires FormatDuration(a) == FormatDuration(b)
    ensures a == b
  {
    ParseFormattedDuration(a);
    ParseFormattedDuration(b);
  }
}
