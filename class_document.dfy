/** A loaded virtual-class document and the route handlers that change it. Each handler
    is one atomic step on the loaded document: the caller's identity and the current
    time are parameters, and the handler's checks, in-place updates of the document and
    reply are modelled; the database round trips are not. */
module ClassDocument {
  import opened Common
  import opened Roster
  import AttendanceCsv

  /** The HTTP outcome of a handler: 200, 400 or 403. */
  datatype Reply = Ok | BadRequest | Forbidden

  function Code(r: Reply): int {
    match r
    case Ok => 200
    case BadRequest => 400
    case Forbidden => 403
  }

  /** The body of an export reply: CSV text, or the rows as JSON. */
  datatype Export = NoExport | CsvText(text: string) | JsonRows(rows: seq<AttendanceCsv.ExportRow>)

  /** The requested format, lower-cased, is CSV when the query leaves it out. */
  function WantsCsv(format: Option<string>): bool {
    ToLower(if format.Some? && format.value != "" then format.value else "csv") == "csv"
  }

  /** What a successful join sends back to the student. */
  datatype JoinInfo = JoinInfo(meetingId: string, meetingPassword: string, title: string)

  /** The schema default of a value that the creator may leave out. */
  function OrDefault(v: Option<int>, default: int): (r: int)
    ensures v.None? ==> r == default
    ensures v.Some? ==> r == v.value
  {
    if v.Some? then v.value else default
  }

  const DefaultDuration := 60
  const DefaultMaxParticipants := 50

  /** The pre-save rule for a generated field: a new document with the field missing
      (empty) gets the generated value; otherwise the stored value stays. */
  function FillOnCreate(current: string, isNew: bool, generated: string): (r: string)
    ensures r != current ==> isNew && current == "" && r == generated
    ensures isNew && current == "" ==> r == generated
    ensures current != "" ==> r == current
  {
    if isNew && current == "" then generated else current
  }

  /** Running the hook again (with any other generated value) changes nothing once
      a non-empty value has been filled in. */
  lemma FillOnCreateIdempotent(current: string, isNew: bool, g1: string, g2: string)
    requires g1 != ""
    ensures FillOnCreate(FillOnCreate(current, isNew, g1), isNew, g2) == FillOnCreate(current, isNew, g1)
  {
  }

  class VirtualClass {
    var title: string
    var description: Option<string>
    var teacherId: string
    var subject: string
    var grade: string
    var scheduledAt: int
    var duration: int
    var meetingId: string
    var meetingPassword: string
    var status: Status
    var participants: seq<Participant>
    var maxParticipants: int
    var isRecorded: bool
    var startedAt: Option<int>
    var endedAt: Option<int>
    /** True until the document is first saved. */
    var isNew: bool

    /** A new document with the schema defaults. `meetingId` and `meetingPassword` are
        the values produced by the random default functions, taken as arbitrary strings. */
    constructor (title: string, description: Option<string>, teacherId: string, subject: string, grade: string,
                 scheduledAt: int, duration: Option<int>, generatedId: string, generatedPassword: string)
      ensures this.title == title && this.description == description && this.teacherId == teacherId
      ensures this.subject == subject && this.grade == grade && this.scheduledAt == scheduledAt
      ensures this.duration == OrDefault(duration, DefaultDuration)
      ensures status == Scheduled && participants == []
      ensures maxParticipants == DefaultMaxParticipants && !isRecorded
      ensures meetingId == generatedId && meetingPassword == generatedPassword
      ensures startedAt.None? && endedAt.None? && isNew
    {
      this.title := title;
      this.description := description;
      this.teacherId := teacherId;
      this.subject := subject;
      this.grade := grade;
      this.scheduledAt := scheduledAt;
      this.duration := OrDefault(duration, DefaultDuration);
      meetingId := generatedId;
      meetingPassword := generatedPassword;
      status := Scheduled;
      participants := [];
      maxParticipants := DefaultMaxParticipants;
      isRecorded := false;
      startedAt := None;
      endedAt := None;
      isNew := true;
    }

    /** The caller owns the class: the caller has a teacher profile and it is the class's teacher. */
    predicate OwnedBy(teacher: Option<string>)
      reads this
    {
      teacher.Some? && teacher.value == teacherId
    }

    /** The pre-save hook: fills a missing meeting id or password on a new document only. */
    method PreSave(generatedId: string, generatedPassword: string)
      modifies this`meetingId, this`meetingPassword
      ensures meetingId == FillOnCreate(old(meetingId), isNew, generatedId)
      ensures meetingPassword == FillOnCreate(old(meetingPassword), isNew, generatedPassword)
    {
      if isNew && meetingId == "" {
        meetingId := generatedId;
      }
      if isNew && meetingPassword == "" {
        meetingPassword := generatedPassword;
      }
    }

    /** PATCH /:id/start. Only the owner may start; the prior status is not checked. */
    method Start(teacher: Option<string>, now: int) returns (reply: Reply)
      modifies this`status, this`startedAt
      ensures reply == (if old(OwnedBy(teacher)) then Ok else Forbidden)
      ensures reply.Ok? ==> status == Live && startedAt == Some(now)
      ensures reply.Forbidden? ==> status == old(status) && startedAt == old(startedAt)
    {
      if !OwnedBy(teacher) {
        return Forbidden;
      }
      status := Live;
      startedAt := Some(now);
      reply := Ok;
    }

    /** PATCH /:id/end. Only the owner may end; the prior status is not checked. */
    method End(teacher: Option<string>, now: int) returns (reply: Reply)
      modifies this`status, this`endedAt
      ensures reply == (if old(OwnedBy(teacher)) then Ok else Forbidden)
      ensures reply.Ok? ==> status == Ended && endedAt == Some(now)
      ensures reply.Forbidden? ==> status == old(status) && endedAt == old(endedAt)
    {
      if !OwnedBy(teacher) {
        return Forbidden;
      }
      status := Ended;
      endedAt := Some(now);
      reply := Ok;
    }

    /** POST /:id/join. Refused unless the class is live and the caller has no present
        entry; otherwise one default entry is appended. */
    method Join(user: string, now: int) returns (reply: Reply, info: Option<JoinInfo>)
      modifies this`participants
      ensures reply == (if status != Live || FirstPresent(old(participants), user).Some? then BadRequest else Ok)
      ensures reply.Ok? ==> participants == Joined(old(participants), user, now)
      ensures reply.Ok? ==> info == Some(JoinInfo(meetingId, meetingPassword, title))
      ensures reply.BadRequest? ==> participants == old(participants) && info.None?
    {
      if status != Live {
        return BadRequest, None;
      }
      if FirstPresent(participants, user).Some? {
        return BadRequest, None;
      }
      participants := participants + [NewParticipant(user, now)];
      reply, info := Ok, Some(JoinInfo(meetingId, meetingPassword, title));
    }

    /** POST /:id/leave. Always succeeds; closes the caller's first present entry if any. */
    method Leave(user: string, now: int) returns (reply: Reply)
      modifies this`participants
      ensures reply.Ok?
      ensures participants == Left(old(participants), user, now)
    {
      var i := FirstPresent(participants, user);
      if i.Some? {
        var p := participants[i.value];
        participants := participants[i.value := p.(isPresent := false, leftAt := Some(now))];
      }
      reply := Ok;
    }

    /** PATCH /:id/attendance/mark. The body is checked first (400), then ownership (403). */
    method Mark(teacher: Option<string>, request: MarkRequest, now: int) returns (reply: Reply)
      modifies this`participants
      ensures reply == (if !ValidMark(request) then BadRequest else if !OwnedBy(teacher) then Forbidden else Ok)
      ensures reply.Ok? ==> participants == Marked(old(participants), request.studentId.value, request.isPresent.value, now)
      ensures !reply.Ok? ==> participants == old(participants)
    {
      if !ValidMark(request) {
        return BadRequest;
      }
      if !OwnedBy(teacher) {
        return Forbidden;
      }
      ApplyMark(request.studentId.value, request.isPresent.value, now);
      reply := Ok;
    }

    /** The in-place update shared by mark and batch. */
    method ApplyMark(id: string, present: bool, now: int)
      modifies this`participants
      ensures participants == Marked(old(participants), id, present, now)
    {
      var i := FirstEntry(participants, id);
      if i.None? {
        participants := participants + [Participant(id, if present then Some(now) else None,
                                                    if present then None else Some(now), present)];
      } else {
        var p := participants[i.value];
        if present {
          p := p.(isPresent := true, joinedAt := if p.joinedAt.Some? then p.joinedAt else Some(now), leftAt := None);
        } else {
          p := p.(isPresent := false, leftAt := if p.leftAt.Some? then p.leftAt else Some(now));
        }
        participants := participants[i.value := p];
      }
    }

    /** PATCH /:id/attendance/batch. `body` is None when the request body is not an
        array. An empty or non-array body gives 400, a non-owner 403; otherwise every
        item is handled in order and reported. */
    method Batch(teacher: Option<string>, body: Option<seq<MarkRequest>>, now: int)
      returns (reply: Reply, results: seq<ItemResult>)
      modifies this`participants
      ensures reply == (if body.None? || body.value == [] then BadRequest else if !OwnedBy(teacher) then Forbidden else Ok)
      ensures reply.Ok? ==> participants == BatchRoster(old(participants), body.value, now)
      ensures reply.Ok? ==> |results| == |body.value|
      ensures reply.Ok? ==> forall k :: 0 <= k < |results| ==> results[k] == ItemResultOf(body.value[k])
      ensures !reply.Ok? ==> participants == old(participants) && results == []
    {
      if body.None? || body.value == [] {
        return BadRequest, [];
      }
      if !OwnedBy(teacher) {
        return Forbidden, [];
      }
      var updates := body.value;
      results := [];
      var i := 0;
      while i < |updates|
        invariant 0 <= i <= |updates|
        invariant participants == BatchRoster(old(participants), updates[..i], now)
        invariant |results| == i
        invariant forall k :: 0 <= k < i ==> results[k] == ItemResultOf(updates[k])
      {
        var u := updates[i];
        assert updates[..i + 1][..i] == updates[..i];
        if !ValidMark(u) {
          results := results + [ItemResult(if u.studentId.Some? && u.studentId.value != "" then u.studentId else None, false)];
        } else {
          ApplyMark(u.studentId.value, u.isPresent.value, now);
          results := results + [ItemResult(u.studentId, true)];
        }
        i := i + 1;
      }
      assert updates[..i] == updates;
      reply := Ok;
    }

    /** GET /:id/attendance: the owner sees one item per entry, in roster order. */
    method Attendance(teacher: Option<string>, users: map<string, Profile>) returns (reply: Reply, items: seq<AttendanceItem>)
      ensures reply == (if OwnedBy(teacher) then Ok else Forbidden)
      ensures reply.Ok? ==> items == AttendanceList(participants, users)
      ensures reply.Forbidden? ==> items == []
    {
      if !OwnedBy(teacher) {
        return Forbidden, [];
      }
      reply, items := Ok, AttendanceList(participants, users);
    }

    /** GET /:id/attendance/export: the owner gets the CSV text, or the rows as JSON
        when another format is asked for. */
    method ExportAttendance(teacher: Option<string>, users: map<string, Profile>, format: Option<string>,
                            iso: int -> string) returns (reply: Reply, body: Export)
      ensures reply == (if OwnedBy(teacher) then Ok else Forbidden)
      ensures reply.Ok? && WantsCsv(format) ==> body == CsvText(AttendanceCsv.ExportCsv(participants, users, iso))
      ensures reply.Ok? && !WantsCsv(format) ==> body == JsonRows(AttendanceCsv.ExportRows(participants, users, iso))
      ensures reply.Forbidden? ==> body.NoExport?
    {
      var csv := WantsCsv(format);
      if !OwnedBy(teacher) {
        return Forbidden, NoExport;
      }
      if csv {
        body := CsvText(AttendanceCsv.ExportCsv(participants, users, iso));
      } else {
        body := JsonRows(AttendanceCsv.ExportRows(participants, users, iso));
      }
      reply := Ok;
    }
  }
}
