/** The enrollment manager: one row per (student, course) pair, and the course
    counter `aktuelleTeilnehmer` kept beside the rows. */
module TeilnehmerKursService {
  import opened Common
  import opened Model
  import opened Store

  /** A row that counts towards the course list of student `teilnehmerId`. */
  function CurrentOfTeilnehmer(teilnehmerId: int): TeilnehmerKurs -> bool {
    (r: TeilnehmerKurs) => r.teilnehmerId == teilnehmerId && IsCurrent(r.status)
  }

  /** The student ids of a list of rows, in order (`map(TeilnehmerKurs::getTeilnehmer)`). */
  function TeilnehmerIds(rows: seq<TeilnehmerKurs>): (ids: seq<int>)
    ensures |ids| == |rows|
    ensures forall i :: 0 <= i < |rows| ==> ids[i] == rows[i].teilnehmerId
  {
    seq(|rows|, i requires 0 <= i < |rows| => rows[i].teilnehmerId)
  }

  /** The course ids of a list of rows, in order (`map(TeilnehmerKurs::getKurs)`). */
  function KursIds(rows: seq<TeilnehmerKurs>): (ids: seq<int>)
    ensures |ids| == |rows|
    ensures forall i :: 0 <= i < |rows| ==> ids[i] == rows[i].kursId
  {
    seq(|rows|, i requires 0 <= i < |rows| => rows[i].kursId)
  }

  /** getTeilnehmerInKurs: the students of the course's angemeldet or aktiv rows,
      in stored order (the DTO mapping is not modelled; ids stand for students). */
  function GetTeilnehmerInKurs(rows: seq<TeilnehmerKurs>, kursId: int): (ids: seq<int>)
    ensures |ids| == ActiveCount(rows, kursId)
  {
    TeilnehmerIds(Filter(rows, CurrentInKurs(kursId)))
  }

  /** getKurseForTeilnehmer: the courses of the student's angemeldet or aktiv rows,
      in stored order. */
  function GetKurseForTeilnehmer(rows: seq<TeilnehmerKurs>, teilnehmerId: int): (ids: seq<int>)
    ensures |ids| <= |rows|
  {
    KursIds(Filter(rows, CurrentOfTeilnehmer(teilnehmerId)))
  }

  /** isStudentEnrolledInCourse: the pair's row exists and is angemeldet or aktiv. */
  predicate IsStudentEnrolledInCourse(rows: seq<TeilnehmerKurs>, teilnehmerId: int, kursId: int)
    ensures IsStudentEnrolledInCourse(rows, teilnehmerId, kursId) ==>
              exists i :: 0 <= i < |rows| && PairKey(rows[i]) == (teilnehmerId, kursId) && IsCurrent(rows[i].status)
    ensures (forall i :: 0 <= i < |rows| && PairKey(rows[i]) == (teilnehmerId, kursId) ==> !IsCurrent(rows[i].status)) ==>
              !IsStudentEnrolledInCourse(rows, teilnehmerId, kursId)
  {
    match FindEnrollment(rows, teilnehmerId, kursId)
    case None => false
    case Some(i) => IsCurrent(rows[i].status)
  }

  /** getEnrollmentDetails: the pair's row, whatever its status, or NotFound. */
  function GetEnrollmentDetails(rows: seq<TeilnehmerKurs>, teilnehmerId: int, kursId: int): (r: Result<TeilnehmerKurs>)
    ensures r.Ok? <==> exists i :: 0 <= i < |rows| && rows[i].teilnehmerId == teilnehmerId && rows[i].kursId == kursId
    ensures r.Ok? ==> r.value in rows && r.value.teilnehmerId == teilnehmerId && r.value.kursId == kursId
    ensures r.Err? ==> r.error == NotFound
  {
    match FindEnrollment(rows, teilnehmerId, kursId)
    case None => Err(NotFound)
    case Some(i) => Ok(rows[i])
  }

  /** A student is enrolled exactly when some row of the pair is angemeldet or aktiv
      (under the unique pair constraint there is at most one such row). */
  lemma {:induction false} EnrolledIff(rows: seq<TeilnehmerKurs>, teilnehmerId: int, kursId: int)
    requires UniqueKeys(rows, PairKey)
    ensures IsStudentEnrolledInCourse(rows, teilnehmerId, kursId) <==>
              exists i :: 0 <= i < |rows| && rows[i].teilnehmerId == teilnehmerId
                                         && rows[i].kursId == kursId && IsCurrent(rows[i].status)
  {
    match FindEnrollment(rows, teilnehmerId, kursId)
    case None =>
    case Some(j) =>
      forall i | 0 <= i < |rows| && rows[i].teilnehmerId == teilnehmerId && rows[i].kursId == kursId
        ensures i == j
      {
        assert PairKey(rows[i]) == PairKey(rows[j]);
        UniqueKeyPosition(rows, PairKey, i, j);
      }
  }

  /** The roster lists exactly the students with a current row in the course. */
  lemma RosterMembership(rows: seq<TeilnehmerKurs>, kursId: int, teilnehmerId: int)
    ensures teilnehmerId in GetTeilnehmerInKurs(rows, kursId) <==>
              exists i :: 0 <= i < |rows| && rows[i].teilnehmerId == teilnehmerId
                                         && rows[i].kursId == kursId && IsCurrent(rows[i].status)
  {
    var f := Filter(rows, CurrentInKurs(kursId));
    var ids := GetTeilnehmerInKurs(rows, kursId);
    FilterMembers(rows, CurrentInKurs(kursId));
    if teilnehmerId in ids {
      var m :| 0 <= m < |ids| && ids[m] == teilnehmerId;
      assert f[m] in rows && CurrentInKurs(kursId)(f[m]);
      var i :| 0 <= i < |rows| && rows[i] == f[m];
      assert rows[i].teilnehmerId == teilnehmerId;
    }
    if i :| 0 <= i < |rows| && rows[i].teilnehmerId == teilnehmerId && rows[i].kursId == kursId && IsCurrent(rows[i].status) {
      assert CurrentInKurs(kursId)(rows[i]);
      assert rows[i] in f;
      var m :| 0 <= m < |f| && f[m] == rows[i];
      assert ids[m] == teilnehmerId;
    }
  }

  /** A student's course list names exactly the courses with a current row of the student. */
  lemma CourseListMembership(rows: seq<TeilnehmerKurs>, teilnehmerId: int, kursId: int)
    ensures kursId in GetKurseForTeilnehmer(rows, teilnehmerId) <==>
              exists i :: 0 <= i < |rows| && rows[i].teilnehmerId == teilnehmerId
                                         && rows[i].kursId == kursId && IsCurrent(rows[i].status)
  {
    var f := Filter(rows, CurrentOfTeilnehmer(teilnehmerId));
    var ids := GetKurseForTeilnehmer(rows, teilnehmerId);
    FilterMembers(rows, CurrentOfTeilnehmer(teilnehmerId));
    if kursId in ids {
      var m :| 0 <= m < |ids| && ids[m] == kursId;
      assert f[m] in rows && CurrentOfTeilnehmer(teilnehmerId)(f[m]);
      var i :| 0 <= i < |rows| && rows[i] == f[m];
      assert rows[i].kursId == kursId;
    }
    if i :| 0 <= i < |rows| && rows[i].teilnehmerId == teilnehmerId && rows[i].kursId == kursId && IsCurrent(rows[i].status) {
      assert CurrentOfTeilnehmer(teilnehmerId)(rows[i]);
      assert rows[i] in f;
      var m :| 0 <= m < |f| && f[m] == rows[i];
      assert ids[m] == kursId;
    }
  }

  /** The three queries agree: a student is enrolled in a course iff the student is
      on its roster iff the course is on the student's list. */
  lemma QueriesAgree(rows: seq<TeilnehmerKurs>, teilnehmerId: int, kursId: int)
    requires UniqueKeys(rows, PairKey)
    ensures IsStudentEnrolledInCourse(rows, teilnehmerId, kursId) <==> teilnehmerId in GetTeilnehmerInKurs(rows, kursId)
    ensures IsStudentEnrolledInCourse(rows, teilnehmerId, kursId) <==> kursId in GetKurseForTeilnehmer(rows, teilnehmerId)
  {
    EnrolledIff(rows, teilnehmerId, kursId);
    RosterMembership(rows, kursId, teilnehmerId);
    CourseListMembership(rows, teilnehmerId, kursId);
  }

  /** A row appended to the table extends the roster at its end (stored order). */
  lemma {:induction false} RosterAppend(rows: seq<TeilnehmerKurs>, x: TeilnehmerKurs, kursId: int)
    ensures GetTeilnehmerInKurs(rows + [x], kursId) ==
              GetTeilnehmerInKurs(rows, kursId) + (if CurrentInKurs(kursId)(x) then [x.teilnehmerId] else [])
  {
    FilterConcat(rows, [x], CurrentInKurs(kursId));
    FilterSingleton(x, CurrentInKurs(kursId));
  }

  /** Appending a row extends the student's course list at its end exactly when the
      row is a current row of that student: the list keeps stored order. */
  lemma {:induction false} CourseListAppend(rows: seq<TeilnehmerKurs>, x: TeilnehmerKurs, teilnehmerId: int)
    ensures GetKurseForTeilnehmer(rows + [x], teilnehmerId) ==
              GetKurseForTeilnehmer(rows, teilnehmerId) + (if CurrentOfTeilnehmer(teilnehmerId)(x) then [x.kursId] else [])
  {
    FilterConcat(rows, [x], CurrentOfTeilnehmer(teilnehmerId));
    FilterSingleton(x, CurrentOfTeilnehmer(teilnehmerId));
  }

  /** Appending a row changes the roster size by that row's contribution. */
  lemma {:induction false} ActiveCountAppend(rows: seq<TeilnehmerKurs>, x: TeilnehmerKurs, kursId: int)
    ensures ActiveCount(rows + [x], kursId) == ActiveCount(rows, kursId) + Contribution(x, kursId)
  {
    FilterConcat(rows, [x], CurrentInKurs(kursId));
    FilterSingleton(x, CurrentInKurs(kursId));
  }

  /** Replacing a row changes the roster size by the difference of the contributions. */
  lemma {:induction false} ActiveCountUpdate(rows: seq<TeilnehmerKurs>, i: nat, x: TeilnehmerKurs, kursId: int)
    requires i < |rows|
    ensures ActiveCount(rows[i := x], kursId) + Contribution(rows[i], kursId) ==
            ActiveCount(rows, kursId) + Contribution(x, kursId)
  {
    var p := CurrentInKurs(kursId);
    assert rows == rows[..i] + [rows[i]] + rows[i + 1..];
    assert rows[i := x] == rows[..i] + [x] + rows[i + 1..];
    FilterConcat(rows[..i] + [rows[i]], rows[i + 1..], p);
    FilterConcat(rows[..i], [rows[i]], p);
    FilterConcat(rows[..i] + [x], rows[i + 1..], p);
    FilterConcat(rows[..i], [x], p);
    FilterSingleton(rows[i], p);
    FilterSingleton(x, p);
  }

  /** The counter of `kursId` lowered by one when it is positive, as the withdrawal does. */
  function DecrementedIfPositive(kurse: map<int, Kurs>, kursId: int): map<int, Kurs>
    requires kursId in kurse
  {
    if kurse[kursId].aktuelleTeilnehmer > 0 then Decremented(kurse, kursId) else kurse
  }

  /** The guarded decrement keeps every capacity invariant and every course. */
  lemma GuardedDecrementKeepsCapacity(kurse: map<int, Kurs>, kursId: int)
    requires kursId in kurse && AllCapacityOk(kurse)
    ensures AllCapacityOk(DecrementedIfPositive(kurse, kursId))
    ensures DecrementedIfPositive(kurse, kursId).Keys == kurse.Keys
  {
    if kurse[kursId].aktuelleTeilnehmer > 0 {
      DecrementKeepsCapacity(kurse, kursId);
    }
    CounterChangesKeepKeys(kurse, kursId);
  }

  /** Appending a current row of `kursId` and raising that counter keeps the counters in sync. */
  lemma {:induction false} EnrollKeepsSync(kurse: map<int, Kurs>, rows: seq<TeilnehmerKurs>, row: TeilnehmerKurs)
    requires row.kursId in kurse && IsCurrent(row.status)
    requires CountersInSync(kurse, rows)
    ensures CountersInSync(Incremented(kurse, row.kursId), rows + [row])
  {
    var kurse' := Incremented(kurse, row.kursId);
    forall id | id in kurse'
      ensures kurse'[id].aktuelleTeilnehmer == ActiveCount(rows + [row], id)
    {
      ActiveCountAppend(rows, row, id);
    }
  }

  /** Withdrawing a current row of `kursId` and applying the guarded decrement keeps the
      counters in sync. */
  lemma {:induction false} WithdrawKeepsSync(kurse: map<int, Kurs>, rows: seq<TeilnehmerKurs>, i: nat, row: TeilnehmerKurs)
    requires i < |rows| && rows[i].kursId in kurse && IsCurrent(rows[i].status)
    requires row.kursId == rows[i].kursId && !IsCurrent(row.status)
    requires CountersInSync(kurse, rows)
    ensures CountersInSync(DecrementedIfPositive(kurse, row.kursId), rows[i := row])
  {
    var kurse' := DecrementedIfPositive(kurse, row.kursId);
    forall id | id in kurse'
      ensures kurse'[id].aktuelleTeilnehmer == ActiveCount(rows[i := row], id)
    {
      ActiveCountUpdate(rows, i, row, id);
    }
  }

  /** The failure enrollTeilnehmerInKurs reports, checking in its order: the student
      exists, the course exists, no row of any status exists for the pair, the
      course has an open seat. None means the enrollment goes through. */
  function EnrollError(teilnehmer: map<int, Teilnehmer>, kurse: map<int, Kurs>, rows: seq<TeilnehmerKurs>,
                       teilnehmerId: int, kursId: int): Option<Error>
  {
    if teilnehmerId !in teilnehmer then Some(NotFound)
    else if kursId !in kurse then Some(NotFound)
    else if HasEnrollment(rows, teilnehmerId, kursId) then Some(AlreadyEnrolled)
    else if !HasOpenSeats(kurse[kursId]) then Some(AtCapacity)
    else None
  }

  /** The enrollment checks, as properties: success needs an existing student and
      course, no earlier row of the pair in any status, and an open seat; a
      withdrawn student cannot enroll again; a full course rejects every newcomer. */
  lemma EnrollErrorCases(teilnehmer: map<int, Teilnehmer>, kurse: map<int, Kurs>, rows: seq<TeilnehmerKurs>,
                         teilnehmerId: int, kursId: int)
    ensures EnrollError(teilnehmer, kurse, rows, teilnehmerId, kursId).None? <==>
              && teilnehmerId in teilnehmer && kursId in kurse
              && (forall i :: 0 <= i < |rows| ==> !(rows[i].teilnehmerId == teilnehmerId && rows[i].kursId == kursId))
              && kurse[kursId].aktuelleTeilnehmer < kurse[kursId].maxTeilnehmer
    ensures EnrollError(teilnehmer, kurse, rows, teilnehmerId, kursId) == Some(NotFound) <==>
              teilnehmerId !in teilnehmer || kursId !in kurse
    ensures forall i :: (0 <= i < |rows| && rows[i].teilnehmerId == teilnehmerId && rows[i].kursId == kursId
                         && rows[i].status == Abgebrochen && teilnehmerId in teilnehmer && kursId in kurse)
              ==> EnrollError(teilnehmer, kurse, rows, teilnehmerId, kursId) == Some(AlreadyEnrolled)
    ensures (teilnehmerId in teilnehmer && kursId in kurse && !HasOpenSeats(kurse[kursId]))
              ==> EnrollError(teilnehmer, kurse, rows, teilnehmerId, kursId) in {Some(AlreadyEnrolled), Some(AtCapacity)}
  {
  }

  /** enrollTeilnehmerInKurs. Checks, in order: the student exists, the course exists,
      no row of any status exists for the pair, the course has an open seat. On
      success one angemeldet row dated `today` is added and the counter rises by one. */
  method EnrollTeilnehmerInKurs(db: Database, teilnehmerId: int, kursId: int, today: Day)
    returns (r: Result<TeilnehmerKurs>)
    requires db.Valid()
    modifies db
    ensures db.Valid()
    ensures var e := EnrollError(old(db.teilnehmer), old(db.kurse), old(db.enrollments), teilnehmerId, kursId);
            if e.Some? then r == Err(e.value) else r.Ok?
    ensures r.Err? ==> unchanged(db)
    ensures r.Ok? ==>
              && kursId in old(db.kurse)
              && r.value == TeilnehmerKurs(old(db.nextId), teilnehmerId, kursId, today, None, Angemeldet)
              && db.enrollments == old(db.enrollments) + [r.value]
              && db.kurse == Incremented(old(db.kurse), kursId)
              && db.nextId == old(db.nextId) + 1
              && unchanged(db`teilnehmer, db`trainer, db`kurstypen, db`kursraeume, db`anwesenheiten, db`stundenplaene)
  {
    if teilnehmerId !in db.teilnehmer {
      return Err(NotFound);
    }
    if kursId !in db.kurse {
      return Err(NotFound);
    }
    var existing := FindEnrollment(db.enrollments, teilnehmerId, kursId);
    if existing.Some? {
      return Err(AlreadyEnrolled);
    }
    var kurs := db.kurse[kursId];
    if kurs.aktuelleTeilnehmer >= kurs.maxTeilnehmer {
      return Err(AtCapacity);
    }
    var row := TeilnehmerKurs(db.nextId, teilnehmerId, kursId, today, None, Angemeldet);
    ghost var rows0 := db.enrollments;
    ghost var kurse0 := db.kurse;
    AppendUniqueKeys(rows0, row, PairKey);
    CounterChangesKeepKeys(kurse0, kursId);
    NewEnrollments(kurse0.Keys, db.teilnehmer.Keys, rows0, rows0 + [row],
                   db.anwesenheiten, db.stundenplaene, db.nextId, db.nextId + 1);
    db.enrollments := db.enrollments + [row];
    db.nextId := db.nextId + 1;
    db.kurse := Incremented(db.kurse, kursId);
    r := Ok(row);
  }

  /** removeTeilnehmerFromKurs. A missing pair is NotFound. Otherwise the row gets
      `abmeldedatum = today` and status abgebrochen whatever its status was, and the
      counter of its course drops by one when it is positive. */
  method RemoveTeilnehmerFromKurs(db: Database, teilnehmerId: int, kursId: int, today: Day)
    returns (r: Result<()>)
    requires db.Valid()
    modifies db
    ensures db.Valid()
    ensures !HasEnrollment(old(db.enrollments), teilnehmerId, kursId) <==> r == Err(NotFound)
    ensures r.Err? ==> r.error == NotFound && unchanged(db)
    ensures r.Ok? ==>
              var i := FindEnrollment(old(db.enrollments), teilnehmerId, kursId).value;
              && kursId in old(db.kurse)
              && db.enrollments == old(db.enrollments)[i := old(db.enrollments)[i].(abmeldedatum := Some(today), status := Abgebrochen)]
              && db.kurse == DecrementedIfPositive(old(db.kurse), kursId)
              && db.nextId == old(db.nextId)
              && unchanged(db`teilnehmer, db`trainer, db`kurstypen, db`kursraeume, db`anwesenheiten, db`stundenplaene)
  {
    var found := FindEnrollment(db.enrollments, teilnehmerId, kursId);
    if found.None? {
      return Err(NotFound);
    }
    var i := found.value;
    ghost var rows0 := db.enrollments;
    ghost var kurse0 := db.kurse;
    var old_row := db.enrollments[i];
    var row := old_row.(abmeldedatum := Some(today), status := Abgebrochen);
    assert PairKey(row) == PairKey(old_row);
    UpdateUniqueKeys(rows0, i, row, PairKey);
    assert old_row.kursId == kursId && kursId in kurse0;
    CounterChangesKeepKeys(kurse0, kursId);
    assert DecrementedIfPositive(kurse0, kursId).Keys == kurse0.Keys;
    NewEnrollments(kurse0.Keys, db.teilnehmer.Keys, rows0, rows0[i := row],
                   db.anwesenheiten, db.stundenplaene, db.nextId, db.nextId);
    db.enrollments := db.enrollments[i := row];
    db.kurse := DecrementedIfPositive(db.kurse, kursId);
    r := Ok(());
  }

  /** updateEnrollmentStatus. A missing pair is NotFound. Otherwise any status is
      accepted; `abmeldedatum` becomes `today` exactly for abgeschlossen and
      abgebrochen and is kept otherwise; no course counter is touched. */
  method UpdateEnrollmentStatus(db: Database, teilnehmerId: int, kursId: int,
                                newStatus: EnrollmentStatus, today: Day)
    returns (r: Result<TeilnehmerKurs>)
    requires db.Valid()
    modifies db
    ensures db.Valid()
    ensures !HasEnrollment(old(db.enrollments), teilnehmerId, kursId) <==> r == Err(NotFound)
    ensures r.Err? ==> r.error == NotFound && unchanged(db)
    ensures r.Ok? ==>
              var i := FindEnrollment(old(db.enrollments), teilnehmerId, kursId).value;
              var row := old(db.enrollments)[i];
              && r.value.status == newStatus
              && r.value.abmeldedatum == (if newStatus == Abgeschlossen || newStatus == Abgebrochen
                                          then Some(today) else row.abmeldedatum)
              && r.value == row.(status := newStatus, abmeldedatum := r.value.abmeldedatum)
              && db.enrollments == old(db.enrollments)[i := r.value]
    ensures unchanged(db`kurse, db`nextId, db`teilnehmer, db`trainer, db`kurstypen, db`kursraeume,
                      db`anwesenheiten, db`stundenplaene)
  {
    var found := FindEnrollment(db.enrollments, teilnehmerId, kursId);
    if found.None? {
      return Err(NotFound);
    }
    var i := found.value;
    var row := db.enrollments[i].(status := newStatus);
    if newStatus == Abgeschlossen || newStatus == Abgebrochen {
      row := row.(abmeldedatum := Some(today));
    }
    UpdateUniqueKeys(db.enrollments, i, row, PairKey);
    NewEnrollments(db.kurse.Keys, db.teilnehmer.Keys, db.enrollments, db.enrollments[i := row],
                   db.anwesenheiten, db.stundenplaene, db.nextId, db.nextId);
    db.enrollments := db.enrollments[i := row];
    r := Ok(row);
  }

  /** The withdrawal ignores the prior status: on a course with at least two current
      rows, withdrawing the same row a second time lowers the counter again while
      the roster stays the same, so counter and roster drift apart. */
  lemma {:induction false} WithdrawTwiceDrifts(kurse: map<int, Kurs>, rows: seq<TeilnehmerKurs>, i: nat,
                                               today: Day, later: Day)
    requires i < |rows| && rows[i].kursId in kurse && IsCurrent(rows[i].status)
    requires CountersInSync(kurse, rows) && ActiveCount(rows, rows[i].kursId) >= 2
    ensures var k := rows[i].kursId;
            var rows1 := rows[i := rows[i].(abmeldedatum := Some(today), status := Abgebrochen)];
            var kurse1 := DecrementedIfPositive(kurse, k);
            var rows2 := rows1[i := rows1[i].(abmeldedatum := Some(later), status := Abgebrochen)];
            var kurse2 := DecrementedIfPositive(kurse1, k);
            && CountersInSync(kurse1, rows1)
            && kurse2[k].aktuelleTeilnehmer == kurse1[k].aktuelleTeilnehmer - 1
            && ActiveCount(rows2, k) == ActiveCount(rows1, k)
            && !CountersInSync(kurse2, rows2)
  {
    var k := rows[i].kursId;
    var rows1 := rows[i := rows[i].(abmeldedatum := Some(today), status := Abgebrochen)];
    var kurse1 := DecrementedIfPositive(kurse, k);
    var rows2 := rows1[i := rows1[i].(abmeldedatum := Some(later), status := Abgebrochen)];
    WithdrawKeepsSync(kurse, rows, i, rows1[i]);
    ActiveCountUpdate(rows1, i, rows2[i], k);
    assert kurse1[k].aktuelleTeilnehmer == ActiveCount(rows1, k);
  }

  /** The status update never touches the counter, so moving a row into or out of
      the current statuses leaves the counter of its course apart from the roster. */
  lemma StatusUpdateBreaksSync(kurse: map<int, Kurs>, rows: seq<TeilnehmerKurs>, i: nat, row: TeilnehmerKurs)
    requires i < |rows| && rows[i].kursId in kurse && row.kursId == rows[i].kursId
    requires CountersInSync(kurse, rows) && IsCurrent(rows[i].status) != IsCurrent(row.status)
    ensures !CountersInSync(kurse, rows[i := row])
  {
    ActiveCountUpdate(rows, i, row, row.kursId);
  }
}
