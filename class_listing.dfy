/** The class lists on web (student and teacher pages) and mobile: the countdown to a
    scheduled class, the status colours, the buttons offered per role and status, the
    endpoint each role lists from, and the teacher's create form. Statuses arrive from
    the server as text and are compared as text. */
module ClassListing {
  import opened Common
  import opened Roster
  import ClassDocument

  // ---------------------------------------------------------------- countdown

  const MinuteMs := 60000
  const HourMs := 3600000
  const DayMs := 86400000

  datatype Countdown = Started | Days(days: int) | Hours(hours: int) | Minutes(minutes: int) | StartingSoon

  /** getTimeUntilClass: minutes, hours and days are floored one from the other; the
      first positive unit wins. */
  function TimeUntilClass(scheduledAt: int, now: int): Countdown {
    var diff := scheduledAt - now;
    if diff < 0 then Started
    else
      var mins := diff / MinuteMs;
      var hours := mins / 60;
      var days := hours / 24;
      if days > 0 then Days(days)
      else if hours > 0 then Hours(hours)
      else if mins > 0 then Minutes(mins)
      else StartingSoon
  }

  /** The text shown for a countdown. */
  function CountdownText(c: Countdown): string {
    match c
    case Started => "Started"
    case Days(n) => IntToString(n) + " day(s)"
    case Hours(n) => IntToString(n) + " hour(s)"
    case Minutes(n) => IntToString(n) + " minute(s)"
    case StartingSoon => "Starting soon"
  }

  /** Exactly one bucket applies, and each is a plain range of the difference: started
      below zero, whole days from one day on, whole hours from one hour on, whole
      minutes from one minute on, and "Starting soon" within the first minute. */
  lemma {:induction false} CountdownBuckets(scheduledAt: int, now: int)
    ensures var diff := scheduledAt - now;
      var c := TimeUntilClass(scheduledAt, now);
      && (c.Started? <==> diff < 0)
      && (c.Days? <==> diff >= DayMs) && (c.Days? ==> c.days == diff / DayMs)
      && (c.Hours? <==> HourMs <= diff < DayMs) && (c.Hours? ==> c.hours == diff / HourMs)
      && (c.Minutes? <==> MinuteMs <= diff < HourMs) && (c.Minutes? ==> c.minutes == diff / MinuteMs)
      && (c.StartingSoon? <==> 0 <= diff < MinuteMs)
  {
    var diff := scheduledAt - now;
    if diff >= 0 {
      var m := diff / MinuteMs;
      var h := m / 60;
      var d := h / 24;
      assert h * HourMs <= diff < (h + 1) * HourMs;
      assert diff / HourMs == h;
      assert d * DayMs <= diff < (d + 1) * DayMs;
      assert diff / DayMs == d;
    }
  }

  // ---------------------------------------------------------------- colours

  const Gray := "bg-gray-100 text-gray-800"

  /** getStatusColor on the student page. */
  function StudentStatusColor(status: string): (c: string)
    ensures c == Gray <==> status != "scheduled" && status != "live"
  {
    match status
    case "scheduled" => "bg-yellow-100 text-yellow-800"
    case "live" => "bg-green-100 text-green-800 animate-pulse"
    case "ended" => Gray
    case _ => Gray
  }

  /** getStatusColor on the teacher page: cancelled has its own colour there. */
  function TeacherStatusColor(status: string): (c: string)
    ensures c == Gray <==> status != "scheduled" && status != "live" && status != "cancelled"
    ensures status != "live" ==> c == StudentStatusColor(status) || status == "cancelled"
  {
    match status
    case "scheduled" => "bg-yellow-100 text-yellow-800"
    case "live" => "bg-green-100 text-green-800"
    case "ended" => Gray
    case "cancelled" => "bg-red-100 text-red-800"
    case _ => Gray
  }

  const MobileGray := "#6b7280"

  /** getStatusColor on mobile: cancelled and unknown statuses share the ended colour. */
  function MobileStatusColor(status: string): (c: string)
    ensures c == MobileGray <==> status != "scheduled" && status != "live"
  {
    match status
    case "scheduled" => "#f59e0b"
    case "live" => "#10b981"
    case "ended" => MobileGray
    case _ => MobileGray
  }

  // ---------------------------------------------------------------- actions

  datatype Action = StartClass | JoinClass | EndClass | ViewAttendance | ScheduledBadge

  /** The buttons on the web teacher page. */
  function TeacherActions(status: string): seq<Action> {
    (if status == "scheduled" then [StartClass] else [])
    + (if status == "live" then [JoinClass, EndClass] else [])
    + (if status == "ended" || status == "cancelled" then [ViewAttendance] else [])
  }

  /** Each stored status gets its own buttons: Start only while scheduled, Join and End
      only while live, View Attendance only once ended or cancelled, and an unknown
      status gets none. */
  lemma TeacherActionTable(s1: string)
    ensures StartClass in TeacherActions(s1) <==> s1 == "scheduled"
    ensures JoinClass in TeacherActions(s1) <==> s1 == "live"
    ensures EndClass in TeacherActions(s1) <==> s1 == "live"
    ensures ViewAttendance in TeacherActions(s1) <==> s1 == "ended" || s1 == "cancelled"
    ensures ScheduledBadge !in TeacherActions(s1)
    ensures ParseStatus(s1).None? ==> TeacherActions(s1) == []
  {
  }

  /** Two statuses share a button only when they are equal or are ended and cancelled. */
  lemma TeacherActionsShared(s1: string, s2: string)
    ensures (exists a :: a in TeacherActions(s1) && a in TeacherActions(s2)) ==>
      s1 == s2 || ({s1, s2} == {"ended", "cancelled"})
  {
    if exists a :: a in TeacherActions(s1) && a in TeacherActions(s2) {
      var a :| a in TeacherActions(s1) && a in TeacherActions(s2);
      assert a == ViewAttendance || s1 == s2;
    }
  }

  /** The buttons on the web student page: join while live, a disabled badge while
      scheduled, nothing otherwise. */
  function StudentActions(status: string): seq<Action> {
    if status == "live" then [JoinClass]
    else if status == "scheduled" then [ScheduledBadge]
    else []
  }

  /** The buttons on the mobile list, chosen first by role, then by status. */
  function MobileActions(role: string, status: string): seq<Action> {
    if role == "teacher" then
      (if status == "scheduled" then [StartClass] else [])
      + (if status == "live" then [JoinClass] else [])
      + (if status == "ended" || status == "cancelled" then [ViewAttendance] else [])
    else
      (if status == "live" then [JoinClass] else [])
      + (if status == "scheduled" then [ScheduledBadge] else [])
  }

  /** The mobile list offers students what the web offers them, and teachers what the
      web offers them except End (ending happens from inside the room on mobile). */
  lemma MobileMatchesWeb(role: string, status: string)
    ensures role != "teacher" ==> MobileActions(role, status) == StudentActions(status)
    ensures role == "teacher" ==> forall a :: a in MobileActions(role, status) <==> a in TeacherActions(status) && a != EndClass
  {
  }

  /** The buttons follow the server's lifecycle: a student is offered Join exactly when
      the class is live, the only status the join endpoint accepts; a teacher is offered
      Start only on a scheduled class and End only on a live one. */
  lemma ActionsFollowLifecycle(s: Status)
    ensures JoinClass in StudentActions(StatusName(s)) <==> s == Live
    ensures StartClass in TeacherActions(StatusName(s)) <==> s == Scheduled
    ensures EndClass in TeacherActions(StatusName(s)) <==> s == Live
    ensures ViewAttendance in TeacherActions(StatusName(s)) <==> s == Ended || s == Cancelled
  {
  }

  /** fetchClasses on mobile: teachers list their own classes, every other role the
      classes open to students. */
  function ClassesEndpoint(role: string): (path: string)
    ensures path == "/virtual-class/teacher/classes" <==> role == "teacher"
    ensures path == "/virtual-class/student/available" <==> role != "teacher"
  {
    if role == "teacher" then "/virtual-class/teacher/classes" else "/virtual-class/student/available"
  }

  // ---------------------------------------------------------------- create form

  datatype ClassForm = ClassForm(title: string, description: string, subject: string, grade: string, scheduledAt: string, duration: int)

  datatype FormState = FormState(form: ClassForm, open: bool)

  /** The blank form: empty text fields and the same duration the schema defaults to. */
  function EmptyForm(): (f: ClassForm)
    ensures f.title == "" && f.description == "" && f.subject == "" && f.grade == "" && f.scheduledAt == ""
    ensures f.duration == ClassDocument.DefaultDuration
  {
    ClassForm("", "", "", "", "", 60)
  }

  /** createClass: a successful response closes the form and blanks it; a failed one
      leaves the form open with what the teacher typed. */
  function AfterCreate(st: FormState, responseOk: bool): (r: FormState)
    ensures responseOk ==> !r.open && r.form == EmptyForm()
    ensures !responseOk ==> r == st
  {
    if responseOk then FormState(EmptyForm(), false) else st
  }
}
