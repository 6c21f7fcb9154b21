/** The attendance roster of one virtual class: the embedded `participants` list of a
    class document and the pure effect of each attendance handler on it. The handlers
    themselves, which also check the caller and the class status and then update the
    loaded document in place, are the methods of ClassDocument.VirtualClass. */
module Roster {
  import opened Common

  /** The status enum of a class document. */
  datatype Status = Scheduled | Live | Ended | Cancelled

  /** The text stored in the document for a status. */
  function StatusName(s: Status): string {
    match s
    case Scheduled => "scheduled"
    case Live => "live"
    case Ended => "ended"
    case Cancelled => "cancelled"
  }

  /** Enum validation: only the four names are accepted. */
  function ParseStatus(name: string): (r: Option<Status>)
    ensures r.Some? ==> StatusName(r.value) == name
  {
    if name == "scheduled" then Some(Scheduled)
    else if name == "live" then Some(Live)
    else if name == "ended" then Some(Ended)
    else if name == "cancelled" then Some(Cancelled)
    else None
  }

  /** Every status is stored under a name the enum accepts, and names are distinct. */
  lemma StatusNameRoundTrip(s: Status, t: Status)
    ensures ParseStatus(StatusName(s)) == Some(s)
    ensures StatusName(s) == StatusName(t) ==> s == t
  {
  }

  /** One roster entry. Missing dates (null or undefined in the document) are None. */
  datatype Participant = Participant(userId: string, joinedAt: Option<int>, leftAt: Option<int>, isPresent: bool)

  /** An entry created with only a user id gets the schema defaults. */
  function NewParticipant(userId: string, now: int): (p: Participant)
    ensures p.userId == userId && p.isPresent
    ensures p.joinedAt == Some(now) && p.leftAt.None?
  {
    Participant(userId, Some(now), None, true)
  }

  predicate PresentFor(p: Participant, user: string) {
    p.userId == user && p.isPresent
  }

  /** Index of the first entry of `user` that is present (the lookup of join and leave). */
  function FirstPresent(ps: seq<Participant>, user: string): (r: Option<nat>)
    ensures r.Some? ==> r.value < |ps| && PresentFor(ps[r.value], user)
    ensures r.Some? ==> forall j :: 0 <= j < r.value ==> !PresentFor(ps[j], user)
    ensures r.None? ==> forall j :: 0 <= j < |ps| ==> !PresentFor(ps[j], user)
  {
    if ps == [] then None
    else if PresentFor(ps[0], user) then Some(0)
    else match FirstPresent(ps[1..], user)
      case None => None
      case Some(i) => Some(i + 1)
  }

  /** Index of the first entry of `user`, present or not (the lookup of mark and batch). */
  function FirstEntry(ps: seq<Participant>, user: string): (r: Option<nat>)
    ensures r.Some? ==> r.value < |ps| && ps[r.value].userId == user
    ensures r.Some? ==> forall j :: 0 <= j < r.value ==> ps[j].userId != user
    ensures r.None? ==> forall j :: 0 <= j < |ps| ==> ps[j].userId != user
  {
    if ps == [] then None
    else if ps[0].userId == user then Some(0)
    else match FirstEntry(ps[1..], user)
      case None => None
      case Some(i) => Some(i + 1)
  }

  // ---------------------------------------------------------------- join / leave

  /** The roster after an accepted join: one new default entry at the end. */
  function Joined(ps: seq<Participant>, user: string, now: int): seq<Participant> {
    ps + [NewParticipant(user, now)]
  }

  function Close(p: Participant, now: int): Participant {
    p.(isPresent := false, leftAt := Some(now))
  }

  /** The roster after a leave: the first present entry of the user, if any, is closed. */
  function Left(ps: seq<Participant>, user: string, now: int): (r: seq<Participant>)
    ensures |r| == |ps|
    ensures forall j :: 0 <= j < |ps| ==> r[j].userId == ps[j].userId && r[j].joinedAt == ps[j].joinedAt
    ensures forall j :: 0 <= j < |ps| && ps[j].userId != user ==> r[j] == ps[j]
    ensures forall j :: 0 <= j < |ps| && !ps[j].isPresent ==> r[j] == ps[j]
    ensures FirstPresent(ps, user).None? ==> r == ps
    ensures FirstPresent(ps, user).Some? ==>
      var i := FirstPresent(ps, user).value;
      !r[i].isPresent && r[i].leftAt == Some(now) && forall j :: 0 <= j < |ps| && j != i ==> r[j] == ps[j]
  {
    match FirstPresent(ps, user)
    case None => ps
    case Some(i) => ps[i := Close(ps[i], now)]
  }

  // ---------------------------------------------------------------- presence invariant

  /** No user has two present entries. */
  ghost predicate SinglePresence(ps: seq<Participant>) {
    forall i, j :: 0 <= i < j < |ps| && ps[i].isPresent && ps[j].isPresent ==> ps[i].userId != ps[j].userId
  }

  /** An accepted join (the user had no present entry) keeps presence single. */
  lemma JoinPreservesSinglePresence(ps: seq<Participant>, user: string, now: int)
    requires SinglePresence(ps)
    requires FirstPresent(ps, user).None?
    ensures SinglePresence(Joined(ps, user, now))
  {
    var r := Joined(ps, user, now);
    forall i, j | 0 <= i < j < |r| && r[i].isPresent && r[j].isPresent
      ensures r[i].userId != r[j].userId
    {
      if j == |ps| {
        assert !PresentFor(ps[i], user);
      }
    }
  }

  /** Leaving keeps presence single. */
  lemma LeavePreservesSinglePresence(ps: seq<Participant>, user: string, now: int)
    requires SinglePresence(ps)
    ensures SinglePresence(Left(ps, user, now))
  {
  }

  /** Under single presence a leave closes the user's only present entry, so a second
      leave finds nothing to close and changes nothing. */
  lemma LeaveTwiceIsNoop(ps: seq<Participant>, user: string, t1: int, t2: int)
    requires SinglePresence(ps)
    ensures FirstPresent(Left(ps, user, t1), user).None?
    ensures Left(Left(ps, user, t1), user, t2) == Left(ps, user, t1)
  {
    var r := Left(ps, user, t1);
    match FirstPresent(ps, user)
    case None =>
    case Some(i) =>
      forall j | 0 <= j < |r| ensures !PresentFor(r[j], user) {
        if j > i {
          assert ps[i].isPresent && ps[i].userId == user;
        }
      }
  }

  /** After leaving and joining again the user has two entries: joining never reuses a
      closed entry. */
  lemma RejoinAddsSecondEntry(user: string, t0: int, t1: int, t2: int)
    ensures var r := Joined(Left(Joined([], user, t0), user, t1), user, t2);
      |r| == 2 && r[0].userId == user && r[1].userId == user
      && !r[0].isPresent && r[0].leftAt == Some(t1) && r[1].isPresent && r[1].joinedAt == Some(t2)
  {
    assert FirstPresent(Joined([], user, t0), user) == Some(0);
  }

  // ---------------------------------------------------------------- mark

  /** A teacher's attendance correction as it arrives in the request body: the id may be
      missing (None) and isPresent may be something other than a boolean (None). */
  datatype MarkRequest = MarkRequest(studentId: Option<string>, isPresent: Option<bool>)

  /** The body check shared by mark and batch: a non-empty id and a boolean flag. */
  predicate ValidMark(u: MarkRequest) {
    u.studentId.Some? && u.studentId.value != "" && u.isPresent.Some?
  }

  /** The correction applied to an existing entry: a recorded time is kept, a missing
      one becomes the current time. */
  function Remark(p: Participant, present: bool, now: int): (q: Participant)
    ensures q.userId == p.userId && q.isPresent == present
    ensures present ==> q.joinedAt.Some? && q.leftAt.None? && (p.joinedAt.Some? ==> q.joinedAt == p.joinedAt)
    ensures present && p.joinedAt.None? ==> q.joinedAt == Some(now)
    ensures !present ==> q.joinedAt == p.joinedAt && q.leftAt.Some? && (p.leftAt.Some? ==> q.leftAt == p.leftAt)
    ensures !present && p.leftAt.None? ==> q.leftAt == Some(now)
  {
    if present then
      p.(isPresent := true, joinedAt := if p.joinedAt.Some? then p.joinedAt else Some(now), leftAt := None)
    else
      p.(isPresent := false, leftAt := if p.leftAt.Some? then p.leftAt else Some(now))
  }

  /** The entry a mark creates for a student with no entry yet. */
  function MarkedEntry(id: string, present: bool, now: int): (p: Participant)
    ensures p.userId == id && p.isPresent == present
    ensures p.joinedAt.Some? <==> present
    ensures p.leftAt.Some? <==> !present
    ensures p.joinedAt.Some? ==> p.joinedAt == Some(now)
    ensures p.leftAt.Some? ==> p.leftAt == Some(now)
  {
    Participant(id, if present then Some(now) else None, if present then None else Some(now), present)
  }

  /** The roster after a valid mark of student `id`. */
  function Marked(ps: seq<Participant>, id: string, present: bool, now: int): (r: seq<Participant>)
    ensures FirstEntry(ps, id).None? ==> r == ps + [MarkedEntry(id, present, now)]
    ensures FirstEntry(ps, id).Some? ==>
      var i := FirstEntry(ps, id).value;
      |r| == |ps| && r[i] == Remark(ps[i], present, now) && forall j :: 0 <= j < |ps| && j != i ==> r[j] == ps[j]
  {
    match FirstEntry(ps, id)
    case None => ps + [MarkedEntry(id, present, now)]
    case Some(i) => ps[i := Remark(ps[i], present, now)]
  }

  /** What a mark guarantees: the student's first entry afterwards carries the flag
      (with a join time when present and a leave time when absent, the current time
      where none was recorded): it is the corrected old entry, or a new entry at the
      end. No entry of another user, and no later entry of the same user, changes. */
  lemma {:induction false} MarkEffect(ps: seq<Participant>, id: string, present: bool, now: int)
    ensures var r := Marked(ps, id, present, now);
      && FirstEntry(r, id).Some?
      && var k := FirstEntry(r, id).value;
      && r[k].isPresent == present
      && (present ==> r[k].joinedAt.Some? && r[k].leftAt.None?)
      && (!present ==> r[k].leftAt.Some?)
      && (k < |ps| ==> r[k] == Remark(ps[k], present, now))
      && (k == |ps| ==> r[k] == MarkedEntry(id, present, now))
      && (forall j :: 0 <= j < |ps| && j != k ==> r[j] == ps[j])
      && |ps| <= |r| <= |ps| + 1
  {
    var r := Marked(ps, id, present, now);
    match FirstEntry(ps, id)
    case None =>
      assert r[|ps|].userId == id;
      assert FirstEntry(r, id) == Some(|ps|) by {
        FirstEntryAt(r, id, |ps|);
      }
    case Some(i) =>
      assert FirstEntry(r, id) == Some(i) by {
        FirstEntryAt(r, id, i);
      }
  }

  /** FirstEntry is determined by the first index carrying the user id. */
  lemma FirstEntryAt(ps: seq<Participant>, id: string, k: nat)
    requires k < |ps| && ps[k].userId == id
    requires forall j :: 0 <= j < k ==> ps[j].userId != id
    ensures FirstEntry(ps, id) == Some(k)
  {
    match FirstEntry(ps, id)
    case None =>
    case Some(i) =>
  }

  /** Marking a student twice the same way is the same as marking once: the dates from
      the first mark are kept. */
  lemma {:induction false} MarkIdempotent(ps: seq<Participant>, id: string, present: bool, t1: int, t2: int)
    ensures Marked(Marked(ps, id, present, t1), id, present, t2) == Marked(ps, id, present, t1)
  {
    var r := Marked(ps, id, present, t1);
    MarkEffect(ps, id, present, t1);
    match FirstEntry(ps, id)
    case None =>
      assert FirstEntry(r, id) == Some(|ps|);
    case Some(i) =>
      assert FirstEntry(r, id) == Some(i);
  }

  /** Marking absent never creates a present entry, so it keeps presence single. */
  lemma MarkAbsentPreservesSinglePresence(ps: seq<Participant>, id: string, now: int)
    requires SinglePresence(ps)
    ensures SinglePresence(Marked(ps, id, false, now))
  {
  }

  /** Marking present acts on the student's FIRST entry, which after a leave and a
      rejoin is the closed one: the student then has two present entries. */
  lemma MarkPresentCanDuplicatePresence(user: string, t0: int, t1: int, t2: int, t3: int)
    ensures var before := Joined(Left(Joined([], user, t0), user, t1), user, t2);
      SinglePresence(before) && !SinglePresence(Marked(before, user, true, t3))
  {
    var a := Joined([], user, t0);
    assert FirstPresent(a, user) == Some(0);
    var before := Joined(Left(a, user, t1), user, t2);
    assert FirstEntry(before, user) == Some(0);
    var r := Marked(before, user, true, t3);
    assert r[0].isPresent && r[1].isPresent;
  }

  // ---------------------------------------------------------------- batch

  /** One item of the batch response. */
  datatype ItemResult = ItemResult(studentId: Option<string>, success: bool)

  /** The response item for an update: invalid items echo a non-empty id, or null. */
  function ItemResultOf(u: MarkRequest): (r: ItemResult)
    ensures r.success <==> ValidMark(u)
    ensures r.studentId.Some? ==> u.studentId == r.studentId && r.studentId.value != ""
    ensures u.studentId.Some? && u.studentId.value != "" ==> r.studentId == u.studentId
  {
    if ValidMark(u) then ItemResult(u.studentId, true)
    else ItemResult(if u.studentId.Some? && u.studentId.value != "" then u.studentId else None, false)
  }

  /** One iteration of the batch loop: invalid items leave the roster alone. */
  function MarkStep(ps: seq<Participant>, u: MarkRequest, now: int): seq<Participant> {
    if ValidMark(u) then Marked(ps, u.studentId.value, u.isPresent.value, now) else ps
  }

  /** The roster after the batch loop has handled `us` in order. */
  function BatchRoster(ps: seq<Participant>, us: seq<MarkRequest>, now: int): seq<Participant>
    decreases |us|
  {
    if us == [] then ps else MarkStep(BatchRoster(ps, us[..|us| - 1], now), us[|us| - 1], now)
  }

  /** The valid updates of a batch, as (student, flag) pairs, in order. */
  function ValidMarks(us: seq<MarkRequest>): (r: seq<(string, bool)>)
    ensures |r| <= |us|
    decreases |us|
  {
    if us == [] then []
    else
      var last := us[|us| - 1];
      ValidMarks(us[..|us| - 1]) + (if ValidMark(last) then [(last.studentId.value, last.isPresent.value)] else [])
  }

  /** Single marks applied one after the other. */
  function MarkAll(ps: seq<Participant>, marks: seq<(string, bool)>, now: int): seq<Participant>
    decreases |marks|
  {
    if marks == [] then ps
    else
      var m := marks[|marks| - 1];
      Marked(MarkAll(ps, marks[..|marks| - 1], now), m.0, m.1, now)
  }

  /** A batch is exactly the single marks of its valid items, in order. */
  lemma {:induction false} BatchIsMarksOfValidItems(ps: seq<Participant>, us: seq<MarkRequest>, now: int)
    ensures BatchRoster(ps, us, now) == MarkAll(ps, ValidMarks(us), now)
    decreases |us|
  {
    if us != [] {
      var init := us[..|us| - 1];
      var last := us[|us| - 1];
      BatchIsMarksOfValidItems(ps, init, now);
      if ValidMark(last) {
        var vm := ValidMarks(us);
        assert vm[..|vm| - 1] == ValidMarks(init);
      } else {
        assert ValidMarks(us) == ValidMarks(init);
      }
    }
  }

  // ---------------------------------------------------------------- growth

  /** `r` extends `ps`: nothing is removed and no entry changes owner. */
  ghost predicate Extends(ps: seq<Participant>, r: seq<Participant>) {
    |ps| <= |r| && forall i :: 0 <= i < |ps| ==> r[i].userId == ps[i].userId
  }

  /** No handler removes an entry or hands it to another user. */
  lemma HandlersExtend(ps: seq<Participant>, user: string, present: bool, now: int)
    ensures Extends(ps, Joined(ps, user, now))
    ensures Extends(ps, Left(ps, user, now))
    ensures Extends(ps, Marked(ps, user, present, now))
  {
  }

  lemma {:induction false} BatchExtends(ps: seq<Participant>, us: seq<MarkRequest>, now: int)
    ensures Extends(ps, BatchRoster(ps, us, now))
    ensures |BatchRoster(ps, us, now)| <= |ps| + |us|
    decreases |us|
  {
    if us != [] {
      BatchExtends(ps, us[..|us| - 1], now);
      var mid := BatchRoster(ps, us[..|us| - 1], now);
      var last := us[|us| - 1];
      if ValidMark(last) {
        HandlersExtend(mid, last.studentId.value, last.isPresent.value, now);
      }
    }
  }

  // ---------------------------------------------------------------- attendance list

  /** The user fields the attendance list and the export read from a populated entry. */
  datatype Profile = Profile(fullName: string, email: string)

  /** One element of the attendance list: the student's id, the populated user (None
      when the referenced user no longer exists) and the entry's dates and flag. */
  datatype AttendanceItem = AttendanceItem(studentId: string, student: Option<Profile>, joinedAt: Option<int>,
                                           leftAt: Option<int>, isPresent: bool)

  function ItemOf(p: Participant, users: map<string, Profile>): AttendanceItem {
    AttendanceItem(p.userId, if p.userId in users then Some(users[p.userId]) else None, p.joinedAt, p.leftAt, p.isPresent)
  }

  /** The attendance list: one item per roster entry, in roster order. */
  function AttendanceList(ps: seq<Participant>, users: map<string, Profile>): (r: seq<AttendanceItem>)
    ensures |r| == |ps|
    ensures forall i :: 0 <= i < |ps| ==> r[i].studentId == ps[i].userId && r[i].isPresent == ps[i].isPresent
    ensures forall i :: 0 <= i < |ps| ==> r[i].joinedAt == ps[i].joinedAt && r[i].leftAt == ps[i].leftAt
    ensures forall i :: 0 <= i < |ps| ==> (r[i].student.Some? <==> ps[i].userId in users)
  {
    seq(|ps|, i requires 0 <= i < |ps| => ItemOf(ps[i], users))
  }
}
