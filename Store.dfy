/** The persistence boundary: every JPA repository the services use becomes a
    field of one `Database` object, with the repository queries the services
    call and the constraints the schema enforces. */
module Store {
  import opened Common
  import opened Model

  /** The unique constraint of TeilnehmerKurs: (teilnehmer_id, kurs_id). */
  function PairKey(r: TeilnehmerKurs): (int, int) {
    (r.teilnehmerId, r.kursId)
  }

  /** The logical key of an attendance record: (student, course, date). */
  function TripleKey(a: Anwesenheit): (int, int, Day) {
    (a.teilnehmerId, a.kursId, a.datum)
  }

  /** Primary key of an attendance record. */
  function AnwesenheitId(a: Anwesenheit): int {
    a.id
  }

  /** Primary key of a schedule slot. */
  function StundenplanId(s: Stundenplan): int {
    s.id
  }

  /** The row for a (student, course) pair, if any. */
  function IsPair(teilnehmerId: int, kursId: int): TeilnehmerKurs -> bool {
    (r: TeilnehmerKurs) => r.teilnehmerId == teilnehmerId && r.kursId == kursId
  }

  /** TeilnehmerKursRepository.findByTeilnehmerIdAndKursId: the position of the row
      for the pair, or None when the pair has no row. */
  function FindEnrollment(rows: seq<TeilnehmerKurs>, teilnehmerId: int, kursId: int): (r: Option<nat>)
    ensures r.Some? ==> r.value < |rows|
    ensures r.Some? ==> rows[r.value].teilnehmerId == teilnehmerId && rows[r.value].kursId == kursId
    ensures r.None? <==> forall i :: 0 <= i < |rows| ==> !(rows[i].teilnehmerId == teilnehmerId && rows[i].kursId == kursId)
  {
    FirstIndex(rows, IsPair(teilnehmerId, kursId))
  }

  /** Some enrollment row, of any status, exists for the pair. */
  predicate HasEnrollment(rows: seq<TeilnehmerKurs>, teilnehmerId: int, kursId: int) {
    FindEnrollment(rows, teilnehmerId, kursId).Some?
  }

  /** A row that counts towards the roster of course `kursId`. */
  function CurrentInKurs(kursId: int): TeilnehmerKurs -> bool {
    (r: TeilnehmerKurs) => r.kursId == kursId && IsCurrent(r.status)
  }

  /** The roster size of a course as the rows define it, independent of the counter. */
  function ActiveCount(rows: seq<TeilnehmerKurs>, kursId: int): nat {
    |Filter(rows, CurrentInKurs(kursId))|
  }

  /** What one row adds to the roster size of `kursId`. */
  function Contribution(r: TeilnehmerKurs, kursId: int): nat {
    if r.kursId == kursId && IsCurrent(r.status) then 1 else 0
  }

  /** Every course counter equals the roster size its rows define. */
  ghost predicate CountersInSync(kurse: map<int, Kurs>, rows: seq<TeilnehmerKurs>) {
    forall id :: id in kurse ==> kurse[id].aktuelleTeilnehmer == ActiveCount(rows, id)
  }

  /** Every course has its capacity invariant. */
  ghost predicate AllCapacityOk(kurse: map<int, Kurs>) {
    forall id :: id in kurse ==> CapacityOk(kurse[id])
  }

  /** The counter of `kursId` raised by one. */
  function Incremented(kurse: map<int, Kurs>, kursId: int): map<int, Kurs>
    requires kursId in kurse
  {
    kurse[kursId := kurse[kursId].(aktuelleTeilnehmer := kurse[kursId].aktuelleTeilnehmer + 1)]
  }

  /** The counter of `kursId` lowered by one. */
  function Decremented(kurse: map<int, Kurs>, kursId: int): map<int, Kurs>
    requires kursId in kurse
  {
    kurse[kursId := kurse[kursId].(aktuelleTeilnehmer := kurse[kursId].aktuelleTeilnehmer - 1)]
  }

  /** Neither counter change adds or removes a course. */
  lemma CounterChangesKeepKeys(kurse: map<int, Kurs>, kursId: int)
    requires kursId in kurse
    ensures Incremented(kurse, kursId).Keys == kurse.Keys
    ensures Decremented(kurse, kursId).Keys == kurse.Keys
  {
  }

  /** Raising the counter of a course with an open seat keeps every capacity invariant. */
  lemma IncrementKeepsCapacity(kurse: map<int, Kurs>, kursId: int)
    requires kursId in kurse && AllCapacityOk(kurse) && HasOpenSeats(kurse[kursId])
    ensures AllCapacityOk(Incremented(kurse, kursId))
  {
  }

  /** Lowering a positive counter keeps every capacity invariant. */
  lemma DecrementKeepsCapacity(kurse: map<int, Kurs>, kursId: int)
    requires kursId in kurse && AllCapacityOk(kurse) && kurse[kursId].aktuelleTeilnehmer > 0
    ensures AllCapacityOk(Decremented(kurse, kursId))
  {
  }

  /** Enrollment table: the unique pair constraint and both foreign keys. */
  ghost predicate EnrollmentsValid(rows: seq<TeilnehmerKurs>, students: set<int>, courses: set<int>) {
    && UniqueKeys(rows, PairKey)
    && (forall i :: 0 <= i < |rows| ==> rows[i].teilnehmerId in students && rows[i].kursId in courses)
  }

  /** Attendance table: unique ids below the id counter, at most one record per
      (student, course, date), and both foreign keys. */
  ghost predicate AttendanceValid(records: seq<Anwesenheit>, students: set<int>, courses: set<int>, nextId: int) {
    && UniqueKeys(records, AnwesenheitId)
    && UniqueKeys(records, TripleKey)
    && (forall i :: 0 <= i < |records| ==> records[i].id < nextId)
    && (forall i :: 0 <= i < |records| ==> records[i].teilnehmerId in students && records[i].kursId in courses)
  }

  /** Schedule table: unique ids below the id counter and the course foreign key. */
  ghost predicate SlotsValid(slots: seq<Stundenplan>, courses: set<int>, nextId: int) {
    && UniqueKeys(slots, StundenplanId)
    && (forall i :: 0 <= i < |slots| ==> slots[i].id < nextId)
    && (forall i :: 0 <= i < |slots| ==> slots[i].kursId in courses)
  }

  /** All schema constraints, over the key sets of the looked-up tables: course ids
      lie below the id counter, and the three scanned tables are valid. */
  ghost predicate Consistent(courses: set<int>, students: set<int>, rows: seq<TeilnehmerKurs>,
                             records: seq<Anwesenheit>, slots: seq<Stundenplan>, nextId: int)
  {
    && (forall id :: id in courses ==> id < nextId)
    && EnrollmentsValid(rows, students, courses)
    && AttendanceValid(records, students, courses, nextId)
    && SlotsValid(slots, courses, nextId)
  }

  /** Replacing the enrollment table by a valid one keeps the store consistent. */
  lemma NewEnrollments(courses: set<int>, students: set<int>, rows: seq<TeilnehmerKurs>, rows': seq<TeilnehmerKurs>,
                       records: seq<Anwesenheit>, slots: seq<Stundenplan>, nextId: int, nextId': int)
    requires Consistent(courses, students, rows, records, slots, nextId)
    requires EnrollmentsValid(rows', students, courses) && nextId <= nextId'
    ensures Consistent(courses, students, rows', records, slots, nextId')
  {
  }

  /** Replacing the attendance table by a valid one keeps the store consistent. */
  lemma NewAttendance(courses: set<int>, students: set<int>, rows: seq<TeilnehmerKurs>, records: seq<Anwesenheit>,
                      records': seq<Anwesenheit>, slots: seq<Stundenplan>, nextId: int, nextId': int)
    requires Consistent(courses, students, rows, records, slots, nextId)
    requires AttendanceValid(records', students, courses, nextId') && nextId <= nextId'
    ensures Consistent(courses, students, rows, records', slots, nextId')
  {
  }

  /** Replacing the schedule table by a valid one keeps the store consistent. */
  lemma NewSlots(courses: set<int>, students: set<int>, rows: seq<TeilnehmerKurs>, records: seq<Anwesenheit>,
                 slots: seq<Stundenplan>, slots': seq<Stundenplan>, nextId: int, nextId': int)
    requires Consistent(courses, students, rows, records, slots, nextId)
    requires SlotsValid(slots', courses, nextId') && nextId <= nextId'
    ensures Consistent(courses, students, rows, records, slots', nextId')
  {
  }

  /** Storing a new course under the id counter keeps the store consistent. */
  lemma NewCourse(kurse: map<int, Kurs>, k: Kurs, students: set<int>, rows: seq<TeilnehmerKurs>,
                  records: seq<Anwesenheit>, slots: seq<Stundenplan>, nextId: int)
    requires Consistent(kurse.Keys, students, rows, records, slots, nextId)
    ensures nextId !in kurse
    ensures Consistent(kurse[nextId := k].Keys, students, rows, records, slots, nextId + 1)
  {
    assert kurse[nextId := k].Keys == kurse.Keys + {nextId};
  }

  /** The rows, records and slots that do not belong to course `kursId`. */
  function RowNotOf(kursId: int): TeilnehmerKurs -> bool {
    (r: TeilnehmerKurs) => r.kursId != kursId
  }

  function RecordNotOf(kursId: int): Anwesenheit -> bool {
    (a: Anwesenheit) => a.kursId != kursId
  }

  function SlotNotOf(kursId: int): Stundenplan -> bool {
    (s: Stundenplan) => s.kursId != kursId
  }

  /** Deleting a course together with its rows, records and slots keeps the store consistent. */
  lemma {:induction false} CascadeDelete(courses: set<int>, students: set<int>, rows: seq<TeilnehmerKurs>,
                                         records: seq<Anwesenheit>, slots: seq<Stundenplan>, nextId: int, kursId: int)
    requires Consistent(courses, students, rows, records, slots, nextId)
    ensures Consistent(courses - {kursId}, students, Filter(rows, RowNotOf(kursId)),
                       Filter(records, RecordNotOf(kursId)), Filter(slots, SlotNotOf(kursId)), nextId)
  {
    var rows' := Filter(rows, RowNotOf(kursId));
    var records' := Filter(records, RecordNotOf(kursId));
    var slots' := Filter(slots, SlotNotOf(kursId));
    FilterMembers(rows, RowNotOf(kursId));
    FilterMembers(records, RecordNotOf(kursId));
    FilterMembers(slots, SlotNotOf(kursId));
    FilterUniqueKeys(rows, RowNotOf(kursId), PairKey);
    FilterUniqueKeys(records, RecordNotOf(kursId), AnwesenheitId);
    FilterUniqueKeys(records, RecordNotOf(kursId), TripleKey);
    FilterUniqueKeys(slots, SlotNotOf(kursId), StundenplanId);
    forall i | 0 <= i < |rows'|
      ensures rows'[i].teilnehmerId in students && rows'[i].kursId in courses - {kursId}
    {
      var j :| 0 <= j < |rows| && rows[j] == rows'[i];
    }
    forall i | 0 <= i < |records'|
      ensures records'[i].id < nextId
      ensures records'[i].teilnehmerId in students && records'[i].kursId in courses - {kursId}
    {
      var j :| 0 <= j < |records| && records[j] == records'[i];
    }
    forall i | 0 <= i < |slots'|
      ensures slots'[i].id < nextId && slots'[i].kursId in courses - {kursId}
    {
      var j :| 0 <= j < |slots| && slots[j] == slots'[i];
    }
  }

  /** The repositories. Maps are tables looked up by primary key; sequences are
      tables the services scan in stored order. `nextId` stands for the identity
      columns. */
  class Database {
    var kurse: map<int, Kurs>
    var kurstypen: set<int>
    var kursraeume: set<int>
    var trainer: map<int, Trainer>
    var teilnehmer: map<int, Teilnehmer>
    var enrollments: seq<TeilnehmerKurs>
    var anwesenheiten: seq<Anwesenheit>
    var stundenplaene: seq<Stundenplan>
    var nextId: int

    /** The schema's constraints. The capacity invariant is not among them: the
        schema does not enforce it, and `UpdateKurs` can break it. */
    ghost predicate Valid()
      reads this
    {
      Consistent(kurse.Keys, teilnehmer.Keys, enrollments, anwesenheiten, stundenplaene, nextId)
    }

    /** A database seeded with reference data and no courses. */
    constructor (teilnehmer0: map<int, Teilnehmer>, trainer0: map<int, Trainer>,
                 kurstypen0: set<int>, kursraeume0: set<int>)
      ensures Valid()
      ensures teilnehmer == teilnehmer0 && trainer == trainer0
      ensures kurstypen == kurstypen0 && kursraeume == kursraeume0
      ensures kurse == map[] && enrollments == [] && anwesenheiten == [] && stundenplaene == []
      ensures nextId == 1
    {
      kurse := map[];
      kurstypen := kurstypen0;
      kursraeume := kursraeume0;
      trainer := trainer0;
      teilnehmer := teilnehmer0;
      enrollments := [];
      anwesenheiten := [];
      stundenplaene := [];
      nextId := 1;
    }
  }
}
