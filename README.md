# Kursinstitut service core in Dafny

This project models the service layer of the Kursinstitut course administration: German courses (`Kurs`), students (`Teilnehmer`), trainers, their enrollments (`TeilnehmerKurs`), attendance records (`Anwesenheit`) and weekly schedule slots (`Stundenplan`). Every JPA repository the services use becomes a field of one `Store.Database` object:
- tables looked up by primary key are maps;
- tables the services scan are sequences in stored order;
- `nextId` stands for the identity columns.

Each service method that changes state is a `method` with `modifies db`. It states its error cases and its whole new state through value-level functions. The properties of those functions are proved as lemmas. `Database.Valid()` holds the schema constraints that the modelled services rely on (the unique trainer e-mail is not among them; see "## Left out"):
- the unique (student, course) pair of enrollments;
- one attendance record per (student, course, date);
- unique ids below the counter;
- foreign keys.

Every method keeps these constraints.

Modules:
- `Common`: Option/Result/Error, the stream `filter` as `Filter`, the first match as `FirstIndex`, and lemmas about them.
- `Model`: the entities and their enums.
- `Dto`: `KursDto` and `StundenplanDto` with their validation predicates, defaults and declared bounds, plus the other request records.
- `Store`: the database, the repository queries, the counter and capacity predicates, and the lemmas that carry the consistency of the store over to new tables.
- `KursService`, `TeilnehmerKursService`, `AnwesenheitService`, `StundenplanService`, `TeilnehmerService`, `TrainerService`: one module per service.
- `Scenarios`: concrete runs on a fresh store.

Dates (`LocalDate`) are day numbers, times (`LocalTime`) are minutes, and "today" is a parameter. An exception thrown inside a `@Transactional` method is an `Err` result together with an unchanged store, because the transaction rolls back.

Some behaviour goes against the written design. The model follows the code in each case:
- The design asks enrollment to require an *active* student. The code checks existence only (`TeilnehmerService.DeletedStudentStillAccepted`). A soft-deleted trainer can likewise still be assigned to a course (`TrainerService.DeletedTrainerStillAssignable`).
- The design states `0 <= aktuelleTeilnehmer <= maxTeilnehmer` for all courses at all times. `updateKurs` sets a new maximum without comparing it to the counter (`KursService.UpdateKursCanBreakCapacity`). The counter therefore sits outside `Valid()`; lemmas show which operations keep it.
- The design says a withdrawal lowers the counter by exactly one. The code does so whatever the row's prior status was, so removing the same student twice lowers it twice (`TeilnehmerKursService.WithdrawTwiceDrifts`).
- The design prefers soft deletion for courses. `deleteKurs` deletes the row, and `CascadeType.ALL` on the course's three collections deletes its enrollments, slots and attendance records with it (`KursService.DeleteKurs`).
- The design checks the date range "when endDate is given". The code checks it only when both dates are present.
- The design's error kinds `Conflict`/`CapacityExceeded` correspond to the code's `IllegalStateException`s. They are named `AlreadyEnrolled`, `AtCapacity`, `NotEnrolled` and `TimeConflict` here. The two `IllegalArgumentException`s are `InvalidRange` and `InvalidCount`, and removing from an empty counter is `NoParticipants`. A write that the NOT NULL start-date column rejects is `NullColumn`.

## Model

| member | source | states |
|---|---|---|
| Dto.NewKursDto | src/main/java/com/bildungsinsitut/deutschkurse/dto/KursDto.java:46-53 | a fresh KursDto has maximum 12, current 0 and status geplant, and it passes both validity predicates and the declared bounds |
| Dto.KursDto.IsValidDateRange | src/main/java/com/bildungsinsitut/deutschkurse/dto/KursDto.java:59-64 | the date range is valid when either date is absent; with both it is valid iff the end is strictly after the start, so equal dates are invalid |
| Dto.KursDto.IsParticipantCountValid | src/main/java/com/bildungsinsitut/deutschkurse/dto/KursDto.java:66-71 | the count check passes when either count is absent, and otherwise iff current <= maximum |
| Dto.BoundsGiveCapacity | src/main/java/com/bildungsinsitut/deutschkurse/dto/KursDto.java:46-51 | the declared bounds (@Positive @Max(50), @Min(0)) with a passing count check give 0 <= current <= maximum <= 50 |
| Dto.NewStundenplanDto | src/main/java/com/bildungsinsitut/deutschkurse/dto/StundenplanDto.java:15-31 | `aktiv` defaults to true, the other fields are as given, and the time range is valid iff start < end |
| Dto.StundenplanDto.IsValidTimeRange | src/main/java/com/bildungsinsitut/deutschkurse/dto/StundenplanDto.java:34-39 | the time range is valid when either time is absent; with both it is valid iff the end is strictly after the start, so equal times are invalid |
| Store.FindEnrollment | src/main/java/com/bildungsinsitut/deutschkurse/repository/TeilnehmerKursRepository.java:15 | the position found holds a row of the pair, and None is returned iff no row of the pair exists |
| Store.IncrementKeepsCapacity | src/main/java/com/bildungsinsitut/deutschkurse/service/KursService.java:163-167 | raising the counter of a course with an open seat keeps 0 <= current <= max for every course |
| Store.DecrementKeepsCapacity | src/main/java/com/bildungsinsitut/deutschkurse/service/KursService.java:179-183 | lowering a positive counter keeps 0 <= current <= max for every course |
| Store.CascadeDelete | src/main/java/com/bildungsinsitut/deutschkurse/model/Kurs.java:70-80 | deleting a course together with its enrollments, attendance records and slots keeps every schema constraint of the store |
| KursService.GetVerfuegbareKurse | src/main/java/com/bildungsinsitut/deutschkurse/repository/KursRepository.java:19-20 | exactly the courses with current < max and status geplant, unchanged |
| KursService.GetAktuelleKurse | src/main/java/com/bildungsinsitut/deutschkurse/service/KursService.java:52-55 | exactly the courses with status geplant or laufend, unchanged |
| KursService.AvailableCourses | src/main/java/com/bildungsinsitut/deutschkurse/service/KursService.java:52-69 | every available course is a current course with an open seat, and a running course is never available |
| KursService.CreateKursChecks | src/main/java/com/bildungsinsitut/deutschkurse/service/KursService.java:80-101 | the date check fails exactly when isValidDateRange is false, and the count check exactly when isParticipantCountValid is false; success needs all three references and a start date; a missing start date fails (NullColumn) exactly when every other check passes; a stored course within the bounds meets the capacity invariant |
| KursService.CreateKurs | src/main/java/com/bildungsinsitut/deutschkurse/service/KursService.java:78-105 | failures come in the order dates, counts, Kurstyp, Kursraum, Trainer, then the NOT NULL start date at the INSERT, and leave the store unchanged; on success exactly one course is stored under a fresh id |
| KursService.UpdatedKursFields | src/main/java/com/bildungsinsitut/deutschkurse/service/KursService.java:118-138 | an update keeps the counter, takes the start date, maximum and status from the request, keeps each absent reference, and is idempotent |
| KursService.UpdateKursCanBreakCapacity | src/main/java/com/bildungsinsitut/deutschkurse/service/KursService.java:119-124 | a course with 5 participants updated to maximum 3 passes every check and leaves the capacity invariant broken |
| KursService.UpdateKurs | src/main/java/com/bildungsinsitut/deutschkurse/service/KursService.java:107-142 | NotFound for an unknown id, then the date check, then the lookups of the given references, then the NOT NULL start date at the flush; any failure leaves the store unchanged; otherwise only that course is overwritten |
| KursService.UpdateKursStatus | src/main/java/com/bildungsinsitut/deutschkurse/service/KursService.java:147-154 | NotFound for an unknown id; otherwise any status is accepted and only the status changes |
| KursService.StatusUpdateKeepsCapacity | src/main/java/com/bildungsinsitut/deutschkurse/service/KursService.java:147-154 | a status overwrite keeps the capacity invariant; a laufend course leaves the available list, and the course is current iff its new status is current |
| KursService.AddTeilnehmerToKurs | src/main/java/com/bildungsinsitut/deutschkurse/service/KursService.java:159-170 | NotFound, or AtCapacity when current >= max, with the store unchanged; otherwise the counter rises by exactly one |
| KursService.RemoveTeilnehmerFromKurs | src/main/java/com/bildungsinsitut/deutschkurse/service/KursService.java:175-186 | NotFound, or NoParticipants when current <= 0, with the store unchanged; otherwise the counter drops by exactly one |
| KursService.CounterChangesBreakSync | src/main/java/com/bildungsinsitut/deutschkurse/service/KursService.java:159-186 | the bare counter changes touch no enrollment row, so on a course whose counter matched its roster either one leaves them apart |
| KursService.DeleteKurs | src/main/java/com/bildungsinsitut/deutschkurse/service/KursService.java:188-193 | NotFound for an unknown id; otherwise the course and all its enrollments, attendance records and slots are removed, and nothing else |
| KursService.CascadeKeepsOtherRosters | src/main/java/com/bildungsinsitut/deutschkurse/service/KursService.java:188-193 | after the cascade no enrollment names the course, and counters that matched their rosters still match |
| TeilnehmerKursService.GetTeilnehmerInKurs | src/main/java/com/bildungsinsitut/deutschkurse/service/TeilnehmerKursService.java:110-118 | the roster has as many entries as the course has angemeldet or aktiv rows |
| TeilnehmerKursService.GetKurseForTeilnehmer | src/main/java/com/bildungsinsitut/deutschkurse/service/TeilnehmerKursService.java:124-132 | the student's course list is no longer than the table |
| TeilnehmerKursService.GetEnrollmentDetails | src/main/java/com/bildungsinsitut/deutschkurse/service/TeilnehmerKursService.java:172-176 | a row of the pair in any status if one exists, otherwise NotFound |
| TeilnehmerKursService.IsStudentEnrolledInCourse | src/main/java/com/bildungsinsitut/deutschkurse/service/TeilnehmerKursService.java:159-166 | the check succeeds only if some row of the pair is angemeldet or aktiv, and fails whenever no row of the pair is |
| TeilnehmerKursService.EnrolledIff | src/main/java/com/bildungsinsitut/deutschkurse/service/TeilnehmerKursService.java:159-166 | under the unique pair constraint, a student is enrolled iff some row of the pair is angemeldet or aktiv |
| TeilnehmerKursService.RosterMembership | src/main/java/com/bildungsinsitut/deutschkurse/service/TeilnehmerKursService.java:110-118 | a student is on the roster iff the student has an angemeldet or aktiv row in the course |
| TeilnehmerKursService.CourseListMembership | src/main/java/com/bildungsinsitut/deutschkurse/service/TeilnehmerKursService.java:124-132 | a course is on the student's list iff the student has an angemeldet or aktiv row in it |
| TeilnehmerKursService.CourseListAppend | src/main/java/com/bildungsinsitut/deutschkurse/service/TeilnehmerKursService.java:124-132 | appending a row extends the student's course list at its end iff the row is an angemeldet or aktiv row of that student, and leaves it unchanged otherwise |
| TeilnehmerKursService.QueriesAgree | src/main/java/com/bildungsinsitut/deutschkurse/service/TeilnehmerKursService.java:110-166 | a student is enrolled in a course iff the student is on its roster iff the course is on the student's list |
| TeilnehmerKursService.RosterAppend | src/main/java/com/bildungsinsitut/deutschkurse/service/TeilnehmerKursService.java:110-118 | appending a row extends the roster at its end when the row is current and leaves it unchanged otherwise (stored order) |
| TeilnehmerKursService.GuardedDecrementKeepsCapacity | src/main/java/com/bildungsinsitut/deutschkurse/service/TeilnehmerKursService.java:98-101 | the withdrawal's guarded decrement keeps the capacity invariant and every course |
| TeilnehmerKursService.EnrollKeepsSync | src/main/java/com/bildungsinsitut/deutschkurse/service/TeilnehmerKursService.java:60-71 | a new angemeldet row together with the increment keeps every counter equal to its roster size |
| TeilnehmerKursService.WithdrawKeepsSync | src/main/java/com/bildungsinsitut/deutschkurse/service/TeilnehmerKursService.java:84-101 | withdrawing a current row with the guarded decrement keeps every counter equal to its roster size |
| TeilnehmerKursService.EnrollErrorCases | src/main/java/com/bildungsinsitut/deutschkurse/service/TeilnehmerKursService.java:39-57 | enrollment passes iff the student and course exist, no row of the pair exists in any status, and a seat is open; NotFound iff one of the two is missing; a withdrawn row blocks re-enrollment; a full course admits no one |
| TeilnehmerKursService.EnrollTeilnehmerInKurs | src/main/java/com/bildungsinsitut/deutschkurse/service/TeilnehmerKursService.java:35-75 | failures follow the check order and leave the store unchanged; success appends one angemeldet row dated today and raises the counter by one |
| TeilnehmerKursService.RemoveTeilnehmerFromKurs | src/main/java/com/bildungsinsitut/deutschkurse/service/TeilnehmerKursService.java:80-104 | NotFound iff the pair has no row; otherwise that row becomes abgebrochen with abmeldedatum today, whatever its status, and the counter drops by one only when positive |
| TeilnehmerKursService.UpdateEnrollmentStatus | src/main/java/com/bildungsinsitut/deutschkurse/service/TeilnehmerKursService.java:137-153 | NotFound iff the pair has no row; otherwise any status is accepted, abmeldedatum becomes today exactly for abgeschlossen and abgebrochen, and no counter changes |
| TeilnehmerKursService.WithdrawTwiceDrifts | src/main/java/com/bildungsinsitut/deutschkurse/service/TeilnehmerKursService.java:93-101 | a second withdrawal of the same row lowers the counter again while the roster stays the same, so counter and roster drift apart |
| TeilnehmerKursService.StatusUpdateBreaksSync | src/main/java/com/bildungsinsitut/deutschkurse/service/TeilnehmerKursService.java:144-152 | moving a row into or out of the current statuses through the status update leaves its course's counter apart from the roster |
| AnwesenheitService.StatusPartition | src/main/java/com/bildungsinsitut/deutschkurse/service/AnwesenheitService.java:70-73 | present + excused + unexcused days equal the number of records |
| AnwesenheitService.RoundToHundredths | src/main/java/com/bildungsinsitut/deutschkurse/service/AnwesenheitService.java:82 | the result is a whole number of hundredths in [0, 100] whose half-open window [y - 0.005, y + 0.005) holds the input (nearest hundredth, halves up); 0 and 100 are kept |
| AnwesenheitService.RoundingUnique | src/main/java/com/bildungsinsitut/deutschkurse/service/AnwesenheitService.java:82 | any hundredth whose window holds the input equals the rounded value, so the contract determines the result |
| AnwesenheitService.AttendanceRate | src/main/java/com/bildungsinsitut/deutschkurse/service/AnwesenheitService.java:75-82 | 0 for no records; otherwise the hundredth within half a hundredth of present/total * 100; always in [0, 100], 0 with no present day and 100 with every day present |
| AnwesenheitService.AnwesenheitStatistik | src/main/java/com/bildungsinsitut/deutschkurse/service/AnwesenheitService.java:67-85 | totalDays counts the pair's records; presentDays, excusedDays and unexcusedDays count its present, excused and unexcused filters and partition it; the rate is AttendanceRate of those counts, within half a hundredth of present/total * 100 |
| AnwesenheitService.FindRecord | src/main/java/com/bildungsinsitut/deutschkurse/service/AnwesenheitService.java:104-107 | the position found holds a record of the (student, course, date), and None is returned iff there is none |
| AnwesenheitService.UpsertErrorCases | src/main/java/com/bildungsinsitut/deutschkurse/service/AnwesenheitService.java:92-101 | an entry passes iff student and course exist and the pair has a row; NotFound iff one of the two is missing; an abgebrochen row suffices |
| AnwesenheitService.Upserted | src/main/java/com/bildungsinsitut/deutschkurse/service/AnwesenheitService.java:109-127 | the saved record has the entry's key and its three values, and at most one id is consumed |
| AnwesenheitService.UpsertKeepsValid | src/main/java/com/bildungsinsitut/deutschkurse/service/AnwesenheitService.java:104-127 | the upsert keeps one record per (student, course, date), unique ids and the foreign keys, and afterwards the record of the key exists |
| AnwesenheitService.UpsertKeepsOthers | src/main/java/com/bildungsinsitut/deutschkurse/service/AnwesenheitService.java:110-125 | records of every other key stay in place, unchanged |
| AnwesenheitService.FindAfterUpsert | src/main/java/com/bildungsinsitut/deutschkurse/service/AnwesenheitService.java:104-127 | under unique keys, the lookup after the upsert finds the saved record at the position of the key |
| AnwesenheitService.UpsertLastWins | src/main/java/com/bildungsinsitut/deutschkurse/service/AnwesenheitService.java:104-127 | a second entry for the same key adds no record and consumes no id, and overwrites the first values in place; the same entry twice equals once |
| AnwesenheitService.UpsertTotalDays | src/main/java/com/bildungsinsitut/deutschkurse/service/AnwesenheitService.java:104-127 | the pair's totalDays grows by one iff the date had no record, and stays otherwise |
| AnwesenheitService.CreateOrUpdateAnwesenheit | src/main/java/com/bildungsinsitut/deutschkurse/service/AnwesenheitService.java:90-129 | failures follow the check order with the store unchanged; otherwise the attendance table and counter become the upsert's and the saved record is returned |
| AnwesenheitService.EntryDto | src/main/java/com/bildungsinsitut/deutschkurse/service/AnwesenheitService.java:142-148 | each entry is sent with the bulk's course and date and its own student and values |
| AnwesenheitService.BulkApplied | src/main/java/com/bildungsinsitut/deutschkurse/service/AnwesenheitService.java:141-156 | the bulk result is never longer than the input |
| AnwesenheitService.BulkResults | src/main/java/com/bildungsinsitut/deutschkurse/service/AnwesenheitService.java:141-161 | the results are exactly the accepted entries in input order, each saved record carrying its entry's student, the bulk's course and date, and its values |
| AnwesenheitService.BulkKeepsValid | src/main/java/com/bildungsinsitut/deutschkurse/service/AnwesenheitService.java:141-156 | the bulk loop keeps every attendance constraint and never lowers the id counter |
| AnwesenheitService.CreateBulkAnwesenheit | src/main/java/com/bildungsinsitut/deutschkurse/service/AnwesenheitService.java:134-162 | NotFound for a missing course with the store unchanged; otherwise the loop's results and state are the bulk application of all entries |
| AnwesenheitService.DeleteDropsOne | src/main/java/com/bildungsinsitut/deutschkurse/service/AnwesenheitService.java:167-172 | under unique ids, deleting an existing id removes exactly one record |
| AnwesenheitService.DeleteRemovesExactly | src/main/java/com/bildungsinsitut/deutschkurse/service/AnwesenheitService.java:171 | after the delete no record has the id, and every other record is still there |
| AnwesenheitService.DeleteAnwesenheit | src/main/java/com/bildungsinsitut/deutschkurse/service/AnwesenheitService.java:167-173 | NotFound iff no record has the id; otherwise the table loses exactly the records with that id |
| StundenplanService.HasTimeConflict | src/main/java/com/bildungsinsitut/deutschkurse/service/StundenplanService.java:141-144 | the test "neither ends before the other starts nor starts after it ends" holds iff the new start is at most the existing end and the existing start is at most the new end |
| StundenplanService.ConflictSharesMinute | src/main/java/com/bildungsinsitut/deutschkurse/service/StundenplanService.java:141-144 | for two ordered intervals the overlap test holds exactly when some minute lies in both closed intervals |
| StundenplanService.TimeConflictCases | src/main/java/com/bildungsinsitut/deutschkurse/service/StundenplanService.java:141-144 | the overlap test is symmetric, true at a shared boundary, true for a slot against itself, and false for disjoint intervals |
| StundenplanService.FindConflict | src/main/java/com/bildungsinsitut/deutschkurse/service/StundenplanService.java:75-82 | the create loop reports a conflict iff some listed slot is on the same weekday, active and overlapping |
| StundenplanService.ConflictIff | src/main/java/com/bildungsinsitut/deutschkurse/service/StundenplanService.java:75-79 | a conflict among the course's slots iff some stored slot of the course is active, on the same weekday and overlapping |
| StundenplanService.OnlyActiveSameDayMatter | src/main/java/com/bildungsinsitut/deutschkurse/service/StundenplanService.java:76-79 | an inactive slot or a slot on another weekday never creates a conflict |
| StundenplanService.NewSlot | src/main/java/com/bildungsinsitut/deutschkurse/service/StundenplanService.java:84-87 | the stored slot takes the request's course, weekday and flag, and its times are ordered iff the request's range is valid |
| StundenplanService.CreateSlotErrorCases | src/main/java/com/bildungsinsitut/deutschkurse/service/StundenplanService.java:64-82 | a create passes iff the range is valid, the course exists and nothing conflicts; an invalid range is reported before the course lookup; an identical active slot is rejected |
| StundenplanService.CreateKeepsDisjoint | src/main/java/com/bildungsinsitut/deutschkurse/service/StundenplanService.java:75-87 | a passing create keeps the active slots of each course and weekday pairwise free of conflicts |
| StundenplanService.CreateStundenplan | src/main/java/com/bildungsinsitut/deutschkurse/service/StundenplanService.java:64-91 | failures follow the check order with the store unchanged; otherwise exactly one slot is appended under a fresh id |
| StundenplanService.FindSlot | src/main/java/com/bildungsinsitut/deutschkurse/service/StundenplanService.java:97-98 | the position found holds the slot with the id, and None is returned iff there is none |
| StundenplanService.UpdatedSlot | src/main/java/com/bildungsinsitut/deutschkurse/service/StundenplanService.java:105-117 | the updated slot keeps its id and takes every other field from the request |
| StundenplanService.UpdateSlotErrorCases | src/main/java/com/bildungsinsitut/deutschkurse/service/StundenplanService.java:96-117 | NotFound for an unknown id, then InvalidRange; the course lookup happens only for a changed course |
| StundenplanService.UpdateCanBreakDisjoint | src/main/java/com/bildungsinsitut/deutschkurse/service/StundenplanService.java:105-110 | moving one of two disjoint Montag slots to overlap the other passes the update and breaks the schedule invariant |
| StundenplanService.UpdateStundenplan | src/main/java/com/bildungsinsitut/deutschkurse/service/StundenplanService.java:96-123 | failures follow the check order with the store unchanged; otherwise only that slot is overwritten |
| StundenplanService.Deactivated | src/main/java/com/bildungsinsitut/deutschkurse/service/StundenplanService.java:133 | the soft delete keeps the table's size and the slot's id and clears its flag |
| StundenplanService.DeactivateKeepsDisjoint | src/main/java/com/bildungsinsitut/deutschkurse/service/StundenplanService.java:128-135 | the soft delete keeps the schedule invariant, changes only the slot's flag and is idempotent |
| StundenplanService.DeleteStundenplan | src/main/java/com/bildungsinsitut/deutschkurse/service/StundenplanService.java:128-136 | NotFound iff no slot has the id; otherwise the slot stays stored with `aktiv` false |
| StundenplanService.GetAllStundenplaene | src/main/java/com/bildungsinsitut/deutschkurse/service/StundenplanService.java:31-33 | the list is no longer than the table |
| StundenplanService.ActiveListExact | src/main/java/com/bildungsinsitut/deutschkurse/service/StundenplanService.java:31-33 | the list holds exactly the active slots |
| StundenplanService.DeletedSlotHidden | src/main/java/com/bildungsinsitut/deutschkurse/service/StundenplanService.java:128-135 | under unique ids, a soft-deleted slot no longer appears in the list |
| TeilnehmerService.GetAllTeilnehmer | src/main/java/com/bildungsinsitut/deutschkurse/service/TeilnehmerService.java:24-27 | exactly the students with `aktiv` true, unchanged |
| TeilnehmerService.GetTeilnehmerById | src/main/java/com/bildungsinsitut/deutschkurse/service/TeilnehmerService.java:29-34 | the stored student, active or not, or NotFound iff the id is unknown |
| TeilnehmerService.UpdateTeilnehmerEffect | src/main/java/com/bildungsinsitut/deutschkurse/service/TeilnehmerService.java:48-57 | after an update the lookup returns the request's values, the student is listed iff the request's flag is set, and others are untouched |
| TeilnehmerService.UpdateTeilnehmer | src/main/java/com/bildungsinsitut/deutschkurse/service/TeilnehmerService.java:43-62 | NotFound iff the id is unknown, with the store unchanged; otherwise the ten fields are overwritten under the same id |
| TeilnehmerService.SoftDeleteEffect | src/main/java/com/bildungsinsitut/deutschkurse/service/TeilnehmerService.java:64-72 | the student keeps the record and is still found, leaves the active list, nobody else changes, and deleting twice equals once |
| TeilnehmerService.DeletedStudentStillAccepted | src/main/java/com/bildungsinsitut/deutschkurse/service/TeilnehmerKursService.java:39-40 | enrollment and attendance checks give the same answer for a soft-deleted student as before the delete |
| TeilnehmerService.DeleteTeilnehmer | src/main/java/com/bildungsinsitut/deutschkurse/service/TeilnehmerService.java:64-72 | NotFound iff the id is unknown, with the store unchanged; otherwise only the flag is cleared |
| TrainerService.GetAllTrainer | src/main/java/com/bildungsinsitut/deutschkurse/service/TrainerService.java:26-28 | exactly the trainers with `aktiv` true, unchanged |
| TrainerService.GetVerfuegbareTrainer | src/main/java/com/bildungsinsitut/deutschkurse/service/TrainerService.java:36-39 | exactly the active trainers with status verfuegbar |
| TrainerService.GetTrainerDtoByAbteilung | src/main/java/com/bildungsinsitut/deutschkurse/service/TrainerService.java:78-81 | exactly the active trainers of the department |
| TrainerService.ListsWithinActive | src/main/java/com/bildungsinsitut/deutschkurse/repository/TrainerRepository.java:14-16 | the available and per-department lists are parts of the active list |
| TrainerService.GetTrainerById | src/main/java/com/bildungsinsitut/deutschkurse/service/TrainerService.java:30-34 | the stored trainer, active or not, or NotFound iff the id is unknown |
| TrainerService.UpdateKeepsDepartment | src/main/java/com/bildungsinsitut/deutschkurse/service/TrainerService.java:51-59 | an update never changes the department and takes every other field from the request, so it is idempotent |
| TrainerService.UpdateTrainer | src/main/java/com/bildungsinsitut/deutschkurse/service/TrainerService.java:47-63 | NotFound iff the id is unknown, with the store unchanged; otherwise that trainer is overwritten except for the department |
| TrainerService.SoftDeleteEffect | src/main/java/com/bildungsinsitut/deutschkurse/service/TrainerService.java:65-70 | the trainer keeps the record and is still found, leaves all three lists, nobody else changes, and deleting twice equals once |
| TrainerService.DeletedTrainerStillAssignable | src/main/java/com/bildungsinsitut/deutschkurse/service/KursService.java:100-101 | course creation and update give the same answer for a soft-deleted trainer as before the delete |
| TrainerService.DeleteTrainer | src/main/java/com/bildungsinsitut/deutschkurse/service/TrainerService.java:65-70 | NotFound iff the id is unknown, with the store unchanged; otherwise only the flag is cleared |
| Scenarios.CapacityScenario | src/test/java/com/bildungsinsitut/deutschkurse/service/TeilnehmerKursServiceTest.java:93-111 | on a course of capacity one the first student enrolls angemeldet, the second gets AtCapacity, and the counter ends at one |
| Scenarios.ReenrollScenario | src/test/java/com/bildungsinsitut/deutschkurse/service/TeilnehmerKursServiceTest.java:114-130 | an enrolled and then withdrawn student is rejected as already enrolled |
| Scenarios.BulkExample | src/main/java/com/bildungsinsitut/deutschkurse/service/AnwesenheitService.java:141-156 | a bulk of an enrolled student, an unknown one and the enrolled one again yields two results and one stored record with the last values |

## Left out

- Controllers, authentication, configuration and the MapStruct mappers. These are HTTP routing, security and generated copying. Results are the stored entities, not the DTOs the mappers build, and a student or course in a list stands for its id.
- Transactions and concurrency. Each method runs alone. A rollback is modelled as an unchanged store. Inside the bulk loop, createOrUpdateAnwesenheit is called on `this`, which bypasses the transactional proxy, so a caught failure does not mark the outer transaction for rollback. Every failure happens before any write, so nothing partial remains. The design's concern about concurrent enrollments racing past the capacity is out of scope.
- Timestamps (`@PrePersist`/`@PreUpdate`), logging, `LocalDate.now()`, which is the `today` parameter, and the case-insensitive name and e-mail searches. These are I/O and database behaviour.
- The read-only getters that only pass a repository result through: getAllKurse, getKursById, getKurseByStatus, getKurseByTrainer, getKurseByStartdatumRange, getAllAnwesenheiten, getAnwesenheitById, getAnwesenheitByKursAndDatum, getAnwesenheitByTeilnehmerAndKurs, getAnwesenheitByDateRange, getStundenplanById, getStundenplaeneByKurs, getStundenplaeneByWochentag and getTrainerByAbteilung. createTeilnehmer and createTrainer are mapper-plus-save operations and are left out too.
- Query order of the map-backed lists: getAllTeilnehmer, getAllTrainer and the course lists are modelled as maps keyed by id (the set of results, not its order).
- KursService.CreateKurs and KursService.UpdateKurs require `maxTeilnehmer` and `aktuelleTeilnehmer` (CreateKurs) or `maxTeilnehmer` (UpdateKurs) to be present, though the code accepts null there. These counts carry only `@Positive`, `@Max` and `@Min`, all of which pass a null (dto/KursDto.java:46-51). createKurs skips its count check when a count is null and saves the course (service/KursService.java:87); updateKurs stores a null maximum (service/KursService.java:122). Nothing fails until the unboxing comparisons of a later addTeilnehmerToKurs or enrollTeilnehmerInKurs throw a NullPointerException (service/KursService.java:163, service/TeilnehmerKursService.java:55). A stored course here always has both counts, so the model leaves out courses with a null count and the requests that would create them.
- Other null values where the code would throw and bean validation demands a value: the reference ids of createKurs (`@NotNull`) and the times of createStundenplan/updateStundenplan (`@NotNull`). The methods require them. A null `startdatum` is modelled instead: the field is `@NotNull` (dto/KursDto.java:39) and the column `nullable = false` (model/Kurs.java:45-46), so the INSERT of createKurs and the flush of updateKurs fail after every service check has passed, and the transaction rolls back (`NullColumn`). Null `Boolean`s (`aktiv`, `anwesend`, `entschuldigt`) are not modelled: they are plain `bool`.
- The client-supplied `id` of a DTO is not modelled. Creation always takes a fresh id.
- One id counter serves all tables. Real identity columns are per table; only freshness matters.
- The `@Future` start and end dates of the `OnCreate` validation group, and the name and description length limits. These are bean validation outside the services.
- AnwesenheitService.RoundToHundredths: rounds an exact real, not an IEEE double, so the representation error of doubles (a quotient such as 1/3 * 100 held to 53 bits before rounding) is not modelled.
- The grade (`abschlussnote`) and remarks of an enrollment, and `Bewertung`. No modelled service reads them.
- Trainer.java lacks the department and hiring-date fields that TrainerService and its query use. The model follows the service.
- Enum spelling. TeilnehmerKursStatus and TrainerStatus declare upper-case constants (enums/TrainerStatus.java:4 declares `VERFUEGBAR`), while the services use lower-case ones (service/TrainerService.java:38 uses `TrainerStatus.verfuegbar`; the enrollment services use `angemeldet`, `aktiv` and so on). As given, those references do not match the declarations. One datatype per enum stands for both spellings: `EnrollmentStatus` with four values and `TrainerStatus` with three. `KursStatusType` is not part of this model beyond the two values the services name and the two remaining design states.
- One attendance record per (student, course, date) is part of `Valid()`, although the schema does not enforce it. createOrUpdateAnwesenheit maintains it, and it is the only writer of attendance records.
- KursService.UpdateKurs and StundenplanService.UpdateStundenplan keep `Valid()` only; they do not keep the capacity invariant or the schedule invariant. The code does not keep them either (`UpdateKursCanBreakCapacity`, `UpdateCanBreakDisjoint`).
- TeilnehmerKursService.GetKurseForTeilnehmer and StundenplanService.GetAllStundenplaene state only a length bound in their own contract. Their membership is stated by `CourseListMembership` and `ActiveListExact`; the stored order of the course list by `CourseListAppend`.
- TrainerService.UpdateTrainer: the unique trainer e-mail column (model/Trainer.java:26) is not part of `Valid()`, so the failure of updateTrainer when the new address belongs to another trainer (the flush at commit violates the unique key and the transaction rolls back) is not modelled; the model returns `Ok` and may store two trainers with one address. The same holds for the unique `kurstyp_code` (model/Kurstyp.java:23), which no modelled service writes.
- Scenarios.CapacityScenario uses a course of capacity one, not the design's capacity-two run with three students, which keeps the proof small. The rejected third enrollment is the same step.
