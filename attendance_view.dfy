/** The teacher's attendance screens (web and mobile): the duration column, the present
    and absent counters, the row selection (a JavaScript Set, modelled as a duplicate-free
    sequence in insertion order) and the payload of "mark selected". */
module AttendanceView {
  import opened Common
  import opened Roster

  // ---------------------------------------------------------------- duration

  datatype Duration = NotAvailable | Minutes(minutes: int)

  function MinuteMs(): int { 60000 }

  /** formatDuration: no join time gives N/A; otherwise the whole minutes, rounded down,
      from the join time to the leave time, or to `now` while the entry is open. */
  function FormatDuration(joinedAt: Option<int>, leftAt: Option<int>, now: int): (d: Duration)
    ensures d.NotAvailable? <==> joinedAt.None?
    ensures joinedAt.Some? ==>
      var end := if leftAt.Some? then leftAt.value else now;
      d.minutes * MinuteMs() <= end - joinedAt.value < (d.minutes + 1) * MinuteMs()
  {
    if joinedAt.None? then NotAvailable
    else
      var end := if leftAt.Some? then leftAt.value else now;
      Minutes((end - joinedAt.value) / MinuteMs())
  }

  /** The text shown: "N/A" or "<n> min". */
  function DurationText(d: Duration): string {
    match d
    case NotAvailable => "N/A"
    case Minutes(m) => IntToString(m) + " min"
  }

  /** A closed entry's duration does not depend on the clock, and an open one never
      shrinks as time passes. */
  lemma DurationAgainstClock(joinedAt: int, leftAt: Option<int>, now1: int, now2: int)
    requires now1 <= now2
    ensures leftAt.Some? ==> FormatDuration(Some(joinedAt), leftAt, now1) == FormatDuration(Some(joinedAt), leftAt, now2)
    ensures leftAt.None? ==> FormatDuration(Some(joinedAt), leftAt, now1).minutes <= FormatDuration(Some(joinedAt), leftAt, now2).minutes
  {
    if leftAt.None? {
      var m1 := FormatDuration(Some(joinedAt), leftAt, now1).minutes;
      var m2 := FormatDuration(Some(joinedAt), leftAt, now2).minutes;
      assert m1 * MinuteMs() < (m2 + 1) * MinuteMs();
    }
  }

  /** A student marked absent without ever joining has no duration; one who joined
      through the join endpoint shows a non-negative duration from then on. */
  lemma DurationOfServerEntries(id: string, t: int, now: int)
    ensures FormatDuration(MarkedEntry(id, false, t).joinedAt, MarkedEntry(id, false, t).leftAt, now).NotAvailable?
    ensures now >= t ==> FormatDuration(NewParticipant(id, t).joinedAt, NewParticipant(id, t).leftAt, now).minutes >= 0
  {
  }

  // ---------------------------------------------------------------- counters

  function PresentCount(items: seq<AttendanceItem>): nat
    decreases |items|
  {
    if items == [] then 0 else PresentCount(items[..|items| - 1]) + (if items[|items| - 1].isPresent then 1 else 0)
  }

  function AbsentCount(items: seq<AttendanceItem>): nat
    decreases |items|
  {
    if items == [] then 0 else AbsentCount(items[..|items| - 1]) + (if items[|items| - 1].isPresent then 0 else 1)
  }

  /** Every record is counted exactly once: present + absent = total. */
  lemma {:induction false} PresentAbsentPartition(items: seq<AttendanceItem>)
    ensures PresentCount(items) + AbsentCount(items) == |items|
    decreases |items|
  {
    if items != [] {
      PresentAbsentPartition(items[..|items| - 1]);
    }
  }

  lemma {:induction false} PresentCountAppend(items: seq<AttendanceItem>, x: AttendanceItem)
    ensures PresentCount(items + [x]) == PresentCount(items) + (if x.isPresent then 1 else 0)
  {
    assert (items + [x])[..|items|] == items;
  }

  lemma {:induction false} PresentCountUpdate(items: seq<AttendanceItem>, i: nat, x: AttendanceItem)
    requires i < |items|
    ensures PresentCount(items[i := x]) == PresentCount(items) - (if items[i].isPresent then 1 else 0) + (if x.isPresent then 1 else 0)
    decreases |items|
  {
    var n := |items|;
    if i == n - 1 {
      assert items[i := x][..n - 1] == items[..n - 1];
    } else {
      PresentCountUpdate(items[..n - 1], i, x);
      assert items[i := x][..n - 1] == items[..n - 1][i := x];
    }
  }

  /** The present counter moves with the roster: a join adds one, a leave that closes an
      entry removes one. */
  lemma CountsFollowJoinAndLeave(ps: seq<Participant>, users: map<string, Profile>, user: string, now: int)
    ensures PresentCount(AttendanceList(Joined(ps, user, now), users)) == PresentCount(AttendanceList(ps, users)) + 1
    ensures FirstPresent(ps, user).Some? ==>
      PresentCount(AttendanceList(Left(ps, user, now), users)) == PresentCount(AttendanceList(ps, users)) - 1
  {
    var items := AttendanceList(ps, users);
    assert AttendanceList(Joined(ps, user, now), users) == items + [ItemOf(NewParticipant(user, now), users)];
    PresentCountAppend(items, ItemOf(NewParticipant(user, now), users));
    if FirstPresent(ps, user).Some? {
      var i := FirstPresent(ps, user).value;
      var l := Left(ps, user, now);
      assert AttendanceList(l, users) == items[i := ItemOf(l[i], users)];
      PresentCountUpdate(items, i, ItemOf(l[i], users));
    }
  }

  // ---------------------------------------------------------------- selection

  predicate Distinct(s: seq<string>) {
    forall i, j :: 0 <= i < j < |s| ==> s[i] != s[j]
  }

  /** Set.prototype.delete on an insertion-ordered set. */
  function Remove(s: seq<string>, x: string): (r: seq<string>)
    ensures forall y :: y in r <==> y in s && y != x
    ensures Distinct(s) ==> Distinct(r)
    ensures x !in s ==> r == s
    decreases |s|
  {
    if s == [] then []
    else if s[|s| - 1] == x then Remove(s[..|s| - 1], x)
    else
      assert Distinct(s) ==> s[|s| - 1] !in s[..|s| - 1];
      Remove(s[..|s| - 1], x) + [s[|s| - 1]]
  }

  /** toggleStudentSelection: delete the id if selected, otherwise add it at the end. */
  function Toggle(sel: seq<string>, id: string): seq<string> {
    if id in sel then Remove(sel, id) else sel + [id]
  }

  /** Toggling flips the one id, keeps every other id and keeps the selection a set. */
  lemma ToggleFlipsOne(sel: seq<string>, id: string)
    requires Distinct(sel)
    ensures Distinct(Toggle(sel, id))
    ensures id in Toggle(sel, id) <==> id !in sel
    ensures forall x :: x != id ==> (x in Toggle(sel, id) <==> x in sel)
  {
  }

  /** Toggling twice restores the selected ids; if the id was not selected, it restores
      the selection exactly, order included. */
  lemma ToggleTwice(sel: seq<string>, id: string)
    requires Distinct(sel)
    ensures forall x :: x in Toggle(Toggle(sel, id), id) <==> x in sel
    ensures id !in sel ==> Toggle(Toggle(sel, id), id) == sel
  {
    if id !in sel {
      assert sel + [id] == sel + [id];
      assert (sel + [id])[..|sel|] == sel;
      assert Remove(sel, id) == sel;
    }
  }

  /** `new Set(ids)`: the distinct ids in order of first occurrence. */
  function Dedup(ids: seq<string>): (r: seq<string>)
    ensures Distinct(r)
    ensures forall x :: x in r <==> x in ids
    ensures |r| <= |ids|
    decreases |ids|
  {
    if ids == [] then []
    else
      var d := Dedup(ids[..|ids| - 1]);
      if ids[|ids| - 1] in d then d else d + [ids[|ids| - 1]]
  }

  /** The page keys and checks each row by `record.student._id`, so it shows the list
      only when every row's user still exists; a row whose user was deleted (a null
      populated user) makes the page fail before any button can be pressed. For a
      populated user `_id` is the entry's user id. */
  predicate Listed(items: seq<AttendanceItem>) {
    forall i :: 0 <= i < |items| ==> items[i].student.Some?
  }

  function StudentIds(items: seq<AttendanceItem>): (r: seq<string>)
    requires Listed(items)
    ensures |r| == |items|
    ensures forall i :: 0 <= i < |items| ==> r[i] == items[i].studentId
  {
    seq(|items|, i requires 0 <= i < |items| => items[i].studentId)
  }

  /** selectAll as written: clear when the selection is as large as the list, otherwise
      select every student id of the list. */
  function SelectAll(sel: seq<string>, items: seq<AttendanceItem>): (r: seq<string>)
    requires Listed(items)
    ensures |sel| == |items| ==> r == []
    ensures |sel| != |items| ==> Distinct(r) && forall x :: x in r <==> exists i :: 0 <= i < |items| && items[i].studentId == x
  {
    if |sel| == |items| then []
    else
      var ids := StudentIds(items);
      var r := Dedup(ids);
      assert forall x :: x in ids <==> exists i :: 0 <= i < |items| && items[i].studentId == x;
      r
  }

  /** When a student appears twice in the list (a rejoin), the selection can never be as
      large as the list: pressing select-all on a full selection selects all again
      instead of clearing it. */
  lemma SelectAllCannotClearAfterRejoin(s: string, u: Profile, t0: int, t1: int, t2: int)
    ensures var items := [AttendanceItem(s, Some(u), Some(t0), Some(t1), false), AttendanceItem(s, Some(u), Some(t2), None, true)];
      && Listed(items)
      && SelectAll([], items) == [s]
      && SelectAll(SelectAll([], items), items) == [s]
  {
    var items := [AttendanceItem(s, Some(u), Some(t0), Some(t1), false), AttendanceItem(s, Some(u), Some(t2), None, true)];
    assert StudentIds(items) == [s, s];
    assert Dedup([s]) == [s];
    assert [s, s][..1] == [s];
  }

  /** Every student of the list is selected. */
  predicate AllSelected(sel: seq<string>, items: seq<AttendanceItem>) {
    forall i :: 0 <= i < |items| ==> items[i].studentId in sel
  }

  /** selectAll as intended: clear when every listed student is selected, otherwise
      select them all. */
  function SelectAllFixed(sel: seq<string>, items: seq<AttendanceItem>): (r: seq<string>)
    requires Listed(items)
    ensures AllSelected(sel, items) ==> r == []
    ensures !AllSelected(sel, items) ==> Distinct(r) && AllSelected(r, items)
    ensures forall x :: x in r ==> exists i :: 0 <= i < |items| && items[i].studentId == x
  {
    if AllSelected(sel, items) then []
    else
      var ids := StudentIds(items);
      assert forall i :: 0 <= i < |items| ==> ids[i] in ids;
      Dedup(ids)
  }

  /** With the intended rule select-all alternates on any non-empty list, duplicates or
      not: of two presses in a row exactly one clears the selection, and the other
      selects every listed student. */
  lemma SelectAllFixedAlternates(sel: seq<string>, items: seq<AttendanceItem>)
    requires Listed(items) && |items| > 0
    ensures var r1 := SelectAllFixed(sel, items);
      var r2 := SelectAllFixed(r1, items);
      (r1 == [] && AllSelected(r2, items)) || (r2 == [] && AllSelected(r1, items))
  {
    var r1 := SelectAllFixed(sel, items);
    if r1 == [] {
      assert !AllSelected([], items) by {
        assert items[0].studentId !in [];
      }
    }
  }

  // ---------------------------------------------------------------- batch payload

  /** batchMarkAttendance: nothing is sent for an empty selection (None); otherwise one
      update per selected id, in selection order, all with the same flag. */
  function BatchPayload(sel: seq<string>, present: bool): (r: Option<seq<MarkRequest>>)
    ensures r.None? <==> sel == []
    ensures r.Some? ==> |r.value| == |sel| && forall k :: 0 <= k < |sel| ==> r.value[k] == MarkRequest(Some(sel[k]), Some(present))
  {
    if sel == [] then None
    else Some(seq(|sel|, k requires 0 <= k < |sel| => MarkRequest(Some(sel[k]), Some(present))))
  }

  /** Marking someone else leaves a student's first entry where and as it was. */
  lemma MarkOtherKeepsFirstEntry(ps: seq<Participant>, other: string, present: bool, now: int, id: string)
    requires other != id
    ensures FirstEntry(Marked(ps, other, present, now), id) == FirstEntry(ps, id)
    ensures FirstEntry(ps, id).Some? ==> Marked(ps, other, present, now)[FirstEntry(ps, id).value] == ps[FirstEntry(ps, id).value]
  {
    var r := Marked(ps, other, present, now);
    match FirstEntry(ps, id)
    case Some(k) =>
      FirstEntryAt(r, id, k);
    case None =>
  }

  /** Sending "mark selected" for a non-empty selection of real ids: every update is
      accepted, and afterwards the first entry of every selected student carries the
      chosen flag. */
  lemma {:induction false} BatchMarksEverySelected(ps: seq<Participant>, sel: seq<string>, present: bool, now: int)
    requires sel != [] && Distinct(sel)
    requires forall k :: 0 <= k < |sel| ==> sel[k] != ""
    ensures var us := BatchPayload(sel, present).value;
      && (forall k :: 0 <= k < |us| ==> ItemResultOf(us[k]).success)
      && var r := BatchRoster(ps, us, now);
         forall x :: x in sel ==> FirstEntry(r, x).Some? && r[FirstEntry(r, x).value].isPresent == present
    decreases |sel|
  {
    var us := BatchPayload(sel, present).value;
    var r := BatchRoster(ps, us, now);
    var last := sel[|sel| - 1];
    MarkEffect(BatchRoster(ps, us[..|us| - 1], now), last, present, now);
    if |sel| > 1 {
      var init := sel[..|sel| - 1];
      assert BatchPayload(init, present).value == us[..|us| - 1];
      BatchMarksEverySelected(ps, init, present, now);
      forall x | x in init
        ensures FirstEntry(r, x).Some? && r[FirstEntry(r, x).value].isPresent == present
      {
        MarkOtherKeepsFirstEntry(BatchRoster(ps, us[..|us| - 1], now), last, present, now, x);
      }
    } else {
      assert us[..0] == [];
    }
  }
}
