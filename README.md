# Virtual-class roster and attendance, in Dafny

This project models the virtual-class part of a school-management system: a teacher
schedules, starts and ends a live class, students join and leave, and the teacher
corrects attendance one student at a time or in batches and exports it as CSV. The
server keeps one class document per class, with a status (`scheduled`, `live`, `ended`,
`cancelled`) and an embedded list of participant entries (`userId`, `joinedAt`,
`leftAt`, `isPresent`). Every route handler loads that document, checks the caller and
the status, changes the list in place and saves it.

The model has these modules:

- `Roster` (`roster.dfy`): the participant entries and the effect of each handler on the
  list, as functions. It also proves the invariants: at most one present entry per user,
  nothing is ever removed, and a batch is the single marks of its valid items, in order.
- `ClassDocument` (`class_document.dfy`): the class document as a `class` whose
  handler methods (start, end, join, leave, mark, batch, attendance, export, pre-save)
  check and update the fields in place. Each method's postcondition ties the new state
  to the `Roster` functions.
- `AttendanceCsv` (`csv.dfy`): the CSV serialiser, plus a parser for the same
  dialect. Reading the export back gives the header, then each entry's six fields.
- `Quiz` (`quiz.dfy`): `calculateScore` as a loop, proved against a recursive score.
- `AttendanceView` (`attendance_view.dfy`): the teacher's attendance screens on web
  and mobile. This covers durations, the present/absent counters, row selection and the
  batch payload, and how that payload fares on the server.
- `ClassRoom` (`class_room.dfy`): the live room on web and mobile. This covers the
  `hh:mm:ss` timer, the participant list and the maps keyed by socket id, the chat send
  guard and the mobile end-class button.
- `ClassListing` (`class_listing.dfy`): the class lists. This covers the countdown
  buckets, status colours, the buttons per role and status, the list endpoint and the
  create form.
- `Auth` (`auth.dfy`): the authentication reducer shared by web and mobile, and the
  login, logout, profile-merge and token-check procedures around it.
- `Tutor` (`tutor.dfy`): the tutor's subject extraction and the topic its canned
  answer is about.
- `StudentSearch` (`student_search.dfy`): the admin's case-insensitive student
  filter.
- `Common` (`common.dfy`): the JavaScript string helpers the others need. These are
  `includes`, `toLowerCase`, `trim`, `join`, `padStart` and decimal rendering.

Conventions:

- Times are integer milliseconds, and the current time is a `now` parameter.
- Ids are strings.
- `null`/`undefined` is `Option.None`.
- Randomly generated meeting ids and passwords are parameters.
- Replies from the server or from the network that a client procedure waits for are
  parameters too.

## Model

| member | source | states |
|---|---|---|
| Roster.ParseStatus | server/models/VirtualClass.js:64-68 | only the four enum names are accepted, and an accepted name is the stored name of its status |
| Roster.StatusNameRoundTrip | server/models/VirtualClass.js:64-68 | every status is stored under a name the enum accepts, and different statuses have different names |
| Roster.NewParticipant | server/models/VirtualClass.js:3-18 | an entry created from a user id alone is present, joined now, with no leave time |
| Roster.FirstPresent | server/routes/virtualClass.js:176-178 | finds the first entry of the user that is present, or reports that none is |
| Roster.FirstEntry | server/routes/virtualClass.js:355 | finds the first entry of the user, present or not, or reports that none exists |
| Roster.Left | server/routes/virtualClass.js:215-223 | leave closes (absent, left now) exactly the first present entry of the caller; every other entry, other users' entries and absent entries stay as they were, and without a present entry nothing changes |
| Roster.JoinPreservesSinglePresence | server/routes/virtualClass.js:176-189 | an accepted join keeps "at most one present entry per user" |
| Roster.LeavePreservesSinglePresence | server/routes/virtualClass.js:215-223 | a leave keeps "at most one present entry per user" |
| Roster.LeaveTwiceIsNoop | server/routes/virtualClass.js:215-228 | with at most one present entry per user, after a leave the caller has no present entry and a second leave changes nothing |
| Roster.RejoinAddsSecondEntry | server/routes/virtualClass.js:176-189 | join, leave, join leaves two entries for the user: the closed one and a new present one |
| Roster.Remark | server/routes/virtualClass.js:365-373 | marking present keeps an existing join time, or sets it to the current time, and clears the leave time; marking absent keeps the join time and keeps an existing leave time, or sets it to the current time |
| Roster.MarkedEntry | server/routes/virtualClass.js:357-364 | the entry a mark creates has a join time iff present and a leave time iff absent, and that time is the current time |
| Roster.Marked | server/routes/virtualClass.js:355-373 | a mark appends a new entry when the student has none, and otherwise rewrites only the student's first entry |
| Roster.MarkEffect | server/routes/virtualClass.js:355-373 | after a mark the student's first entry carries the flag and is either the corrected old entry or a new entry at the end; no other entry changes, and the list grows by at most one |
| Roster.MarkIdempotent | server/routes/virtualClass.js:365-373 | repeating the same mark, at any later time, changes nothing |
| Roster.MarkAbsentPreservesSinglePresence | server/routes/virtualClass.js:370-372 | marking absent keeps "at most one present entry per user" |
| Roster.MarkPresentCanDuplicatePresence | server/routes/virtualClass.js:366-369 | after join, leave, join, marking the student present reopens the first (closed) entry, so the student then has two present entries |
| Roster.ItemResultOf | server/routes/virtualClass.js:404-431 | a batch item succeeds iff its id is non-empty and its flag a boolean; a failed item echoes a non-empty id or null |
| Roster.BatchIsMarksOfValidItems | server/routes/virtualClass.js:402-432 | the roster after a batch equals single marks applied for the valid items in order; invalid items change nothing |
| Roster.HandlersExtend | server/routes/virtualClass.js:176-228 | join, leave and mark never remove an entry or give it to another user |
| Roster.BatchExtends | server/routes/virtualClass.js:402-432 | a batch never removes an entry and adds at most one per item |
| Roster.AttendanceList | server/routes/virtualClass.js:271-279 | the attendance list has one item per entry, in roster order, with the entry's dates and flag, and a populated user exactly when the user exists |
| ClassDocument.FillOnCreate | server/models/VirtualClass.js:97-105 | a generated value fills a missing field of a new document, and an existing value is never overwritten |
| ClassDocument.FillOnCreateIdempotent | server/models/VirtualClass.js:97-105 | running the hook again after it filled a field changes nothing |
| ClassDocument.VirtualClass.constructor | server/models/VirtualClass.js:20-94 | a new class is scheduled, has no participants, duration 60 unless given, `maxParticipants` 50, and is not recorded |
| ClassDocument.VirtualClass.PreSave | server/models/VirtualClass.js:97-105 | the pre-save hook fills meeting id and password by the rule above and touches nothing else |
| ClassDocument.VirtualClass.Start | server/routes/virtualClass.js:84-108 | only the owning teacher may start (otherwise 403 and nothing changes); start sets live and the start time, whatever the prior status |
| ClassDocument.VirtualClass.End | server/routes/virtualClass.js:111-135 | only the owning teacher may end (otherwise 403 and nothing changes); end sets ended and the end time, whatever the prior status |
| ClassDocument.VirtualClass.Join | server/routes/virtualClass.js:164-205 | 400 unless live, 400 if the caller has a present entry; otherwise one default entry is appended and the meeting credentials are returned |
| ClassDocument.VirtualClass.Leave | server/routes/virtualClass.js:208-232 | always succeeds; the roster becomes the leave result above |
| ClassDocument.VirtualClass.Mark | server/routes/virtualClass.js:338-381 | the body is checked before ownership (400, then 403) and a refused request changes nothing; otherwise the roster becomes the single-mark result |
| ClassDocument.VirtualClass.ApplyMark | server/routes/virtualClass.js:355-373 | the in-place update of mark produces exactly the single-mark roster |
| ClassDocument.VirtualClass.Batch | server/routes/virtualClass.js:385-440 | an empty or non-array body gives 400, a non-owner 403, with nothing changed; otherwise there is one result per item in order, and the roster is the batch result |
| ClassDocument.VirtualClass.Attendance | server/routes/virtualClass.js:256-283 | only the owner gets the list, which is the attendance list of the roster |
| ClassDocument.VirtualClass.ExportAttendance | server/routes/virtualClass.js:287-334 | only the owner gets the export: CSV text when the lower-cased format is csv or missing, the JSON rows otherwise |
| AttendanceCsv.ParseBareInverse | server/routes/virtualClass.js:318 | an unquoted (empty) field reads back as itself, stopping at the separator |
| AttendanceCsv.ParseQuotedInverse | server/routes/virtualClass.js:320 | un-doubling the quotes of an escaped value recovers the value |
| AttendanceCsv.ParseCellInverse | server/routes/virtualClass.js:317-320 | every field the serialiser writes reads back as the same field |
| AttendanceCsv.ParseRecordInverse | server/routes/virtualClass.js:316-321 | a record of fields joined by ',' reads back field by field |
| AttendanceCsv.ParseDocumentInverse | server/routes/virtualClass.js:315-322 | records joined by '\n' read back record by record |
| AttendanceCsv.FieldCell | server/routes/virtualClass.js:317-320 | a null value becomes an empty field, and any other value a quoted field that reads back |
| AttendanceCsv.ExportRows | server/routes/virtualClass.js:303-310 | the export has one row per roster entry |
| AttendanceCsv.HeaderLine | server/routes/virtualClass.js:314-315 | the first line is the six header names joined by ',' |
| AttendanceCsv.ExportRoundTrip | server/routes/virtualClass.js:303-322 | reading the CSV back gives the header, then for each entry in roster order its six fields in header order |
| AttendanceCsv.QuotedFieldRecovered | server/routes/virtualClass.js:320 | a quoted value containing commas, quotes or newlines still reads back as one field |
| Quiz.OutOfRangeEarnsNothing | server/models/Quiz.js:35-40 | on questions whose correct option is one of 0..3, an answer selecting no option or one outside 0..3 earns nothing |
| Quiz.NewQuestion | server/models/Quiz.js:35-44 | a question's marks default to 1 |
| Quiz.CalculateScore | server/models/Quiz.js:95-103 | the loop computes the sum of the marks of the questions answered correctly at the same position |
| Quiz.ScoreOfNoAnswers | server/models/Quiz.js:95-103 | no answers score 0 |
| Quiz.ExtraAnswersIgnored | server/models/Quiz.js:98 | answers beyond the last question do not change the score |
| Quiz.ScoreWithinPrefixMarks | server/models/Quiz.js:95-103 | with non-negative marks, the score lies between 0 and the marks of the questions answered |
| Quiz.MarksUpToMonotone | server/models/Quiz.js:41-44 | with non-negative marks, the marks of the first questions never exceed the total |
| Quiz.ScoreBounds | server/models/Quiz.js:95-103 | with non-negative marks, 0 <= score <= total marks |
| Quiz.CorrectingAnswerAddsItsMarks | server/models/Quiz.js:98-100 | turning one wrong answer into the right one adds exactly that question's marks |
| AttendanceView.FormatDuration | client/src/components/AttendanceManager.jsx:141-150 | N/A iff there is no join time; otherwise the whole minutes, rounded down, from joining to leaving, or to now while the entry is open |
| AttendanceView.DurationAgainstClock | mobile-app/src/screens/AttendanceScreen.js:64-73 | a closed entry's duration does not depend on the clock, and an open entry's never decreases as time passes |
| AttendanceView.DurationOfServerEntries | mobile-app/src/screens/AttendanceScreen.js:65-70 | a student marked absent without joining shows N/A; a joined student shows a non-negative duration |
| AttendanceView.PresentAbsentPartition | mobile-app/src/screens/AttendanceScreen.js:121-122 | present count + absent count = number of records |
| AttendanceView.CountsFollowJoinAndLeave | client/src/components/AttendanceManager.jsx:224-231 | a join raises the present counter by one; a leave that closes an entry lowers it by one |
| AttendanceView.Remove | client/src/components/AttendanceManager.jsx:126 | deleting an id keeps every other id, keeps the selection a set, and is harmless when the id is absent |
| AttendanceView.ToggleFlipsOne | client/src/components/AttendanceManager.jsx:123-131 | a toggle flips the membership of exactly one id and keeps the selection a set |
| AttendanceView.ToggleTwice | client/src/components/AttendanceManager.jsx:123-131 | two toggles restore the selected ids, and restore the exact selection when the id was not selected |
| AttendanceView.Dedup | client/src/components/AttendanceManager.jsx:137 | building a set from the ids keeps each id once and no other |
| AttendanceView.SelectAll | client/src/components/AttendanceManager.jsx:133-139 | on a list whose every row has a populated user, clears when the selection is as large as the list; otherwise selects exactly the listed student ids, each once |
| AttendanceView.SelectAllCannotClearAfterRejoin | client/src/components/AttendanceManager.jsx:133-139 | with a rejoined student listed twice, pressing select-all twice never clears the selection |
| AttendanceView.SelectAllFixed | client/src/components/AttendanceManager.jsx:133-139 | clears when every listed student is selected; otherwise selects them all |
| AttendanceView.SelectAllFixedAlternates | client/src/components/AttendanceManager.jsx:133-139 | on a non-empty list, of two presses one clears and the other selects every listed student |
| AttendanceView.BatchPayload | client/src/components/AttendanceManager.jsx:68-79 | nothing is sent for an empty selection; otherwise one update per selected id, in order, all with the same flag |
| AttendanceView.MarkOtherKeepsFirstEntry | server/routes/virtualClass.js:411-429 | marking one student leaves another student's first entry where and as it was |
| AttendanceView.BatchMarksEverySelected | client/src/components/AttendanceManager.jsx:68-79 | for a non-empty selection of ids, the server accepts every update and afterwards each selected student's first entry carries the chosen flag |
| ClassRoom.TimerFields | client/src/components/VirtualClass.jsx:31-34 | minutes and seconds are below 60, and the time shown is the elapsed time rounded down to the second |
| ClassRoom.Pad | client/src/components/VirtualClass.jsx:35 | a field is all digits, two characters below 100, and longer (not cut) from 100 on |
| ClassRoom.PadValue | client/src/components/VirtualClass.jsx:35 | padding does not change the number a field reads as |
| ClassRoom.TimerTextReadsBack | client/src/components/VirtualClass.jsx:31-35 | the text is hours ':' minutes ':' seconds reading back as the three fields; it is eight characters iff hours < 100 |
| ClassRoom.WithoutSocket | client/src/components/VirtualClass.jsx:54 | a leave removes every entry with that socket id and keeps all the others |
| ClassRoom.WithoutSocketDistributes | client/src/components/VirtualClass.jsx:54 | removal works piece by piece, so the order of the remaining entries is kept |
| ClassRoom.JoinThenLeaveRestores | client/src/components/VirtualClass.jsx:47-54 | joining then leaving on a fresh socket restores the list exactly |
| ClassRoom.ShouldSendIffNotBlank | client/src/components/VirtualClass.jsx:195 | a message is sent iff there is a socket and the draft is not all whitespace |
| ClassRoom.WebRoom.constructor | client/src/components/VirtualClass.jsx:11-27 | the room starts with no participants, connections, messages or draft |
| ClassRoom.WebRoom.ParticipantJoined | client/src/components/VirtualClass.jsx:46-51 | the newcomer is appended at the end; a teacher also opens a connection under its socket id |
| ClassRoom.WebRoom.ParticipantLeft | client/src/components/VirtualClass.jsx:53-59 | the list loses that socket's entries, and the connection map loses that key while every other key stays |
| ClassRoom.WebRoom.VideoOffer | client/src/components/VirtualClass.jsx:145-150 | an answering connection is stored under the sender's socket id |
| ClassRoom.WebRoom.ChatReceived | client/src/components/VirtualClass.jsx:61-63 | a received message is appended |
| ClassRoom.WebRoom.Type | client/src/components/VirtualClass.jsx:404 | typing replaces the draft |
| ClassRoom.WebRoom.SendMessage | client/src/components/VirtualClass.jsx:194-205 | when the guard holds, the draft is emitted as typed (untrimmed) and cleared; otherwise nothing changes |
| ClassRoom.MobileRoom.constructor | mobile-app/src/screens/VirtualClassRoomScreen.js:24-35 | the room starts with no participants, connections, streams, messages or draft; whether an `RTCPeerConnection` global exists is fixed for the room |
| ClassRoom.MobileRoom.ParticipantJoined | mobile-app/src/screens/VirtualClassRoomScreen.js:95-124 | the newcomer is appended at the end; a teacher's connection is stored only when `RTCPeerConnection` exists, so as shipped the connection map does not change |
| ClassRoom.MobileRoom.ParticipantLeft | mobile-app/src/screens/VirtualClassRoomScreen.js:102-113 | the list, the connection map and the stream map all lose that socket, and nothing else in them changes |
| ClassRoom.MobileRoom.VideoOffer | mobile-app/src/screens/VirtualClassRoomScreen.js:157-162 | an answering connection is stored under the sender's socket id when `RTCPeerConnection` exists; as shipped the constructor throws first and the map does not change |
| ClassRoom.MobileRoom.StreamAdded | mobile-app/src/screens/VirtualClassRoomScreen.js:134-139 | a stream event, which only a stored connection can raise, replaces or adds only that socket's stream; without `RTCPeerConnection` no connection is stored, so the stream map stays empty |
| ClassRoom.MobileRoom.ChatReceived | mobile-app/src/screens/VirtualClassRoomScreen.js:115-117 | a received message is appended |
| ClassRoom.MobileRoom.Type | mobile-app/src/screens/VirtualClassRoomScreen.js:326 | typing replaces the draft |
| ClassRoom.MobileRoom.SendMessage | mobile-app/src/screens/VirtualClassRoomScreen.js:229-240 | when the guard holds, the draft is emitted untrimmed and cleared; otherwise nothing changes |
| ClassRoom.EndClass | mobile-app/src/screens/VirtualClassRoomScreen.js:242-251 | only a teacher calls the end endpoint; the screen goes back unless that call failed, and an alert shows exactly when it does not go back |
| ClassListing.CountdownBuckets | client/src/components/StudentVirtualClass.jsx:59-74 | exactly one bucket applies: started iff the start is past, whole days from one day on, whole hours from one hour on, whole minutes from one minute on, and "Starting soon" iff less than a minute remains |
| ClassListing.StudentStatusColor | client/src/components/StudentVirtualClass.jsx:50-57 | the grey badge is used iff the status is neither scheduled nor live |
| ClassListing.TeacherStatusColor | client/src/components/TeacherVirtualClass.jsx:95-103 | grey iff the status is not scheduled, live or cancelled; it differs from the student page only for live and cancelled |
| ClassListing.MobileStatusColor | mobile-app/src/screens/VirtualClassListScreen.js:64-71 | grey iff the status is neither scheduled nor live (cancelled and unknown included) |
| ClassListing.TeacherActionTable | client/src/components/TeacherVirtualClass.jsx:159-193 | Start only when scheduled, Join and End only when live, View Attendance only when ended or cancelled, nothing for an unknown status |
| ClassListing.TeacherActionsShared | client/src/components/TeacherVirtualClass.jsx:159-193 | two different statuses share a button only if one is ended and the other cancelled |
| ClassListing.MobileMatchesWeb | mobile-app/src/screens/VirtualClassListScreen.js:92-141 | mobile shows students the web student buttons and teachers the web teacher buttons without End |
| ClassListing.ActionsFollowLifecycle | client/src/components/StudentVirtualClass.jsx:153-170 | a student is offered Join iff the class is live (the only status join accepts); a teacher gets Start only on scheduled, End only on live, attendance only on ended or cancelled |
| ClassListing.ClassesEndpoint | mobile-app/src/screens/VirtualClassListScreen.js:27-29 | teachers list their classes, every other role the available ones |
| ClassListing.EmptyForm | client/src/components/TeacherVirtualClass.jsx:51-58 | the reset form has empty text fields and the schema's default duration |
| ClassListing.AfterCreate | client/src/components/TeacherVirtualClass.jsx:49-60 | a successful create closes and blanks the form; a failed one leaves it as typed |
| Auth.InitialState | client/src/context/AuthContext.js:6-10 | no user, loading, no error |
| Auth.LoggedOut | client/src/context/AuthContext.js:20-21 | no user, not loading, no error |
| Auth.ReducerEffects | client/src/context/AuthContext.js:12-25 | SET_USER sets the user and clears loading and error; SET_ERROR keeps the user; LOGOUT forgets everything; SET_LOADING changes only loading; other actions change nothing; all but SET_LOADING and unknown ones end loading |
| Auth.ReduceIdempotent | mobile-app/src/context/AuthContext.js:13-26 | dispatching an action twice equals dispatching it once |
| Auth.LogoutForgetsHistory | mobile-app/src/context/AuthContext.js:21-22 | any history of actions ending in LOGOUT ends in the logged-out state |
| Auth.Merge | client/src/context/AuthContext.js:114-116 | the new fields win, other old fields stay, and no other field appears |
| Auth.LoginError | client/src/context/AuthContext.js:95 | the server's message when non-empty, otherwise "Login failed" |
| Auth.WebAuth.constructor | client/src/context/AuthContext.js:27-28 | the provider starts in the initial state |
| Auth.WebAuth.Login | client/src/context/AuthContext.js:79-99 | success stores both tokens, sets the header and signs the user in; failure records the error, keeps the user and tokens, and reports failure; loading ends either way |
| Auth.WebAuth.SignOut | client/src/context/AuthContext.js:101-112 | whatever the server answers, tokens and header are removed and the state is logged out |
| Auth.WebAuth.UpdateUser | client/src/context/AuthContext.js:114-116 | the user becomes the merge of the old user and the new fields |
| Auth.WebAuth.CheckAuthStatus | client/src/context/AuthContext.js:34-77 | no token ends loading and changes nothing else; otherwise the header carries the stored token; a good profile signs in; otherwise a refresh is tried, which ends loading without a refresh token, signs in with both new tokens and the new token in the header on success, and logs out with tokens and header cleared on any failure; loading always ends |
| Auth.MobileAuth.constructor | mobile-app/src/context/AuthContext.js:28-29 | the provider starts in the initial state |
| Auth.MobileAuth.Login | mobile-app/src/context/AuthContext.js:50-68 | success stores the tokens and signs in; failure sets the error, keeps the user and reports failure |
| Auth.MobileAuth.SignOut | mobile-app/src/context/AuthContext.js:70-80 | tokens removed and logged out whatever the server answers |
| Auth.MobileAuth.CheckAuthStatus | mobile-app/src/context/AuthContext.js:35-48 | no token ends loading; a good profile signs in; a failed check leads to the logged-out state with the tokens removed |
| Tutor.ExtractSubjects | server/ai_tutor/aiService.js:228-249 | the loop collects exactly the subjects of the table rows the lower-cased message mentions, in table order |
| Tutor.Picked | server/ai_tutor/aiService.js:240-246 | the rows picked are increasing table indices, exactly those whose keywords occur |
| Tutor.SubjectsInTableOrder | server/ai_tutor/aiService.js:240-246 | the k-th subject found is the k-th picked row's name |
| Tutor.SubjectsIff | server/ai_tutor/aiService.js:240-246 | with distinct names, a subject is listed iff one of its keywords occurs, and none is listed twice |
| Tutor.SubjectTableNamesDistinct | server/ai_tutor/aiService.js:230-238 | the seven subject names are distinct |
| Tutor.NoKeywordNoSubjects | server/ai_tutor/aiService.js:242-248 | a message with no keyword yields no subject |
| Tutor.EmptyMessageHasNoSubjects | server/ai_tutor/aiService.js:228-249 | the empty message yields no subject |
| Tutor.TopicCaseInsensitive | server/ai_tutor/aiService.js:44 | topic and subjects do not depend on letter case |
| Tutor.QuadraticBeforeAlgebra | server/ai_tutor/aiService.js:43-166 | a quadratic-equation message would also match the algebra rule, and precedence gives it the quadratic answer |
| Tutor.NewtonNeedsLaw | server/ai_tutor/aiService.js:125 | the Newton answer needs both "newton" and "law" |
| Tutor.TopicAgreesWithSubjects | server/ai_tutor/aiService.js:43-249 | the quadratic and algebra answers come with Mathematics, photosynthesis with Biology, Newton's laws with Physics |
| StudentSearch.Filtered | client/src/components/Admin/StudentManagement.jsx:75-80 | the shown students are exactly the matching students of the list, and there are at most as many as in the list |
| StudentSearch.FilteredDistributes | client/src/components/Admin/StudentManagement.jsx:75-80 | the filter works piece by piece, so the original order is kept |
| StudentSearch.EmptyTermKeepsStudentsWithAField | client/src/components/Admin/StudentManagement.jsx:76-79 | an empty term keeps exactly the students with at least one of the four fields |
| StudentSearch.SearchCaseInsensitive | client/src/components/Admin/StudentManagement.jsx:76-79 | the result does not depend on the letter case of the term |
| StudentSearch.RefiningNarrows | client/src/components/Admin/StudentManagement.jsx:76-79 | a term containing the previous term shows no student that was not shown before |

## Left out

- Database and HTTP layer: `findById`, `populate`, `save`, the 404 replies, the 500 replies and the auth middleware. Each handler is one atomic step on the loaded document; concurrent requests are not modelled.
- The validator of the create route, and the list and detail routes that only query.
- WebRTC offers, answers and ICE candidates, media tracks and the socket relay. Events arrive as method calls; emitted chat messages are collected in `outbox`.
- ClassRoom.MobileRoom.ParticipantJoined, VideoOffer and StreamAdded: the mobile screen never imports `RTCPeerConnection`, so as shipped (`webRtc` false) the constructor call throws inside the async handler, and the connection and stream maps never change. The `webRtc` true case describes the screen with a WebRTC global installed; the rejected promise itself is not modelled.
- Quiz.Question: `correctAnswer` and `marks` are integers. The schema's `Number` would also accept fractional marks, which the model does not.
- All network and storage I/O (fetch, axios, localStorage, AsyncStorage, blob download). Replies are parameters, and stored tokens are fields.
- Random meeting ids and passwords: they are parameters.
- Date-to-ISO formatting in the export: a parameter `iso`.
- The canned answer texts of the tutor: only their topic is modelled. The chat-history stubs and the system prompt are not part of this model.
- `Student.getAttendancePercentage`, `getAverageMarks` and `Teacher.calculateAverageRating`: they use floating point and are not part of this model.
- Common.ToLower: lower-cases ASCII letters only, whereas `toLowerCase` also maps other Unicode letters.
- ClassDocument.VirtualClass.Batch: uses one `now` for every item, where the server reads the clock once per new date.
- ClassRoom.TimerFields: takes a non-negative elapsed time; a clock set back (negative elapsed) is not modelled.
- AttendanceCsv.HeaderLine: states the header as the six names joined by ',' rather than as one literal string.
- Populated users: a map from user id to name and e-mail. A roster entry whose user no longer exists has no profile, and the reply's `student` is null for it. The web attendance page reads `record.student._id` for every row and so fails on such a list; that failure is not modelled.
- AttendanceView.SelectAll: requires every listed row to have a populated user (`Listed`), as the page does when it renders; the `_id` of a populated user is the entry's user id. `StudentIds` and `SelectAllFixed` carry the same requirement.
- StudentSearch.Filtered: a student without a user account is modelled as missing both name and e-mail.
- Values that are not strings or booleans where the source expects them (a numeric `studentId`, say) are not modelled.

## Findings

| source | as written | input that shows it | evidently intended | confidence | as-written member | corrected member |
|---|---|---|---|---|---|---|
| client/src/components/AttendanceManager.jsx:133-139 | select-all clears only when the selection size equals the number of list rows | a student who left and joined again is listed twice; select-all from an empty selection selects that one id, and pressing it again selects it again instead of clearing | clear when every listed student is selected, otherwise select all | high (not executed) | AttendanceView.SelectAllCannotClearAfterRejoin | AttendanceView.SelectAllFixed |
