/** AnwesenheitService: attendance statistics, the attendance upsert gated on an
    enrollment row, the bulk upsert that skips failing entries, and deletion. */
module AnwesenheitService {
  import opened Common
  import opened Model
  import opened Dto
  import opened Store

  // ---------------------------------------------------------------------------
  // Statistics
  // ---------------------------------------------------------------------------

  /** The records of one (student, course) pair. */
  function OfPair(teilnehmerId: int, kursId: int): Anwesenheit -> bool {
    (a: Anwesenheit) => a.teilnehmerId == teilnehmerId && a.kursId == kursId
  }

  /** AnwesenheitRepository.findByTeilnehmerIdAndKursId. */
  function RecordsOf(records: seq<Anwesenheit>, teilnehmerId: int, kursId: int): seq<Anwesenheit> {
    Filter(records, OfPair(teilnehmerId, kursId))
  }

  /** A present day. */
  predicate Present(a: Anwesenheit) {
    a.anwesend
  }

  /** An excused absence. */
  predicate Excused(a: Anwesenheit) {
    !a.anwesend && a.entschuldigt
  }

  /** An unexcused absence. */
  predicate Unexcused(a: Anwesenheit) {
    !a.anwesend && !a.entschuldigt
  }

  /** Every record is exactly one of present, excused or unexcused. */
  lemma {:induction false} StatusPartition(list: seq<Anwesenheit>)
    ensures |Filter(list, Present)| + |Filter(list, Excused)| + |Filter(list, Unexcused)| == |list|
  {
    if list != [] {
      StatusPartition(list[1..]);
    }
  }

  /** Math.round(x * 100.0) / 100.0 on exact reals: the nearest hundredth, halves rounded up. */
  function RoundToHundredths(x: real): (y: real)
    requires 0.0 <= x <= 100.0
    ensures IsHundredth(y)
    ensures 0.0 <= y <= 100.0
    ensures y - 0.005 <= x < y + 0.005
    ensures x == 0.0 ==> y == 0.0
    ensures x == 100.0 ==> y == 100.0
  {
    var n := (x * 100.0 + 0.5).Floor;
    assert n as real <= x * 100.0 + 0.5 < n as real + 1.0;
    assert (n as real / 100.0) * 100.0 == n as real;
    (n as real) / 100.0
  }

  /** A whole number of hundredths. */
  predicate IsHundredth(y: real) {
    (y * 100.0).Floor as real == y * 100.0
  }

  /** The rounding is the only hundredth whose half-open window [y - 0.005, y + 0.005)
      holds x, so its contract fixes the result. */
  lemma {:induction false} RoundingUnique(x: real, z: real)
    requires 0.0 <= x <= 100.0
    requires IsHundredth(z) && z - 0.005 <= x < z + 0.005
    ensures z == RoundToHundredths(x)
  {
    var y := RoundToHundredths(x);
    var m, n := (z * 100.0).Floor, (y * 100.0).Floor;
    assert m as real == z * 100.0 && n as real == y * 100.0;
    assert -1.0 < (m - n) as real < 1.0;
    assert m == n;
  }

  /** The attendance rate in percent, rounded to hundredths; 0 for no records. */
  function AttendanceRate(present: nat, total: nat): (rate: real)
    requires present <= total
    ensures 0.0 <= rate <= 100.0 && IsHundredth(rate)
    ensures total == 0 ==> rate == 0.0
    ensures 0 < total ==>
              rate - 0.005 <= present as real / total as real * 100.0 < rate + 0.005
    ensures 0 < total && present == total ==> rate == 100.0
    ensures present == 0 ==> rate == 0.0
  {
    if total == 0 then 0.0
    else
      var exact := present as real / total as real * 100.0;
      assert 0.0 <= present as real / total as real <= 1.0;
      assert present == total ==> present as real / total as real == 1.0;
      RoundToHundredths(exact)
  }

  /** The statistics map: four counts and the rate. */
  datatype Statistik = Statistik(
    totalDays: nat,
    presentDays: nat,
    excusedDays: nat,
    unexcusedDays: nat,
    attendanceRate: real)

  /** getAnwesenheitStatistik: counts over the pair's records. */
  function AnwesenheitStatistik(records: seq<Anwesenheit>, teilnehmerId: int, kursId: int): (s: Statistik)
    ensures s.totalDays == |RecordsOf(records, teilnehmerId, kursId)|
    ensures s.presentDays == |Filter(RecordsOf(records, teilnehmerId, kursId), Present)|
    ensures s.excusedDays == |Filter(RecordsOf(records, teilnehmerId, kursId), Excused)|
    ensures s.unexcusedDays == |Filter(RecordsOf(records, teilnehmerId, kursId), Unexcused)|
    ensures s.presentDays + s.excusedDays + s.unexcusedDays == s.totalDays
    ensures s.presentDays <= s.totalDays
    ensures s.attendanceRate == AttendanceRate(s.presentDays, s.totalDays)
    ensures 0 < s.totalDays ==>
              s.attendanceRate - 0.005 <= s.presentDays as real / s.totalDays as real * 100.0 < s.attendanceRate + 0.005
    ensures 0.0 <= s.attendanceRate <= 100.0
    ensures s.totalDays == 0 ==> s.attendanceRate == 0.0
    ensures 0 < s.totalDays && s.presentDays == s.totalDays ==> s.attendanceRate == 100.0
  {
    var list := RecordsOf(records, teilnehmerId, kursId);
    StatusPartition(list);
    var present := |Filter(list, Present)|;
    Statistik(|list|, present, |Filter(list, Excused)|, |Filter(list, Unexcused)|,
              AttendanceRate(present, |list|))
  }

  // ---------------------------------------------------------------------------
  // Create or update one record
  // ---------------------------------------------------------------------------

  /** The record for a (student, course, date), if any. */
  function IsTriple(teilnehmerId: int, kursId: int, datum: Day): Anwesenheit -> bool {
    (a: Anwesenheit) => a.teilnehmerId == teilnehmerId && a.kursId == kursId && a.datum == datum
  }

  /** The pair's records filtered by date, first match: the position of the record
      for (student, course, date), or None. */
  function FindRecord(records: seq<Anwesenheit>, teilnehmerId: int, kursId: int, datum: Day): (r: Option<nat>)
    ensures r.Some? ==> r.value < |records| && TripleKey(records[r.value]) == (teilnehmerId, kursId, datum)
    ensures r.None? <==> forall i :: 0 <= i < |records| ==> TripleKey(records[i]) != (teilnehmerId, kursId, datum)
  {
    FirstIndex(records, IsTriple(teilnehmerId, kursId, datum))
  }

  /** The checks of createOrUpdateAnwesenheit, in order: the student must exist,
      the course must exist, and an enrollment row of any status must exist. */
  function UpsertError(teilnehmer: map<int, Teilnehmer>, kurse: map<int, Kurs>, rows: seq<TeilnehmerKurs>,
                       dto: AnwesenheitDto): Option<Error>
  {
    if dto.teilnehmerId !in teilnehmer then Some(NotFound)
    else if dto.kursId !in kurse then Some(NotFound)
    else if !HasEnrollment(rows, dto.teilnehmerId, dto.kursId) then Some(NotEnrolled)
    else None
  }

  /** The gate admits exactly the entries of known students enrolled in a known
      course; a withdrawn enrollment row still admits its student. */
  lemma UpsertErrorCases(teilnehmer: map<int, Teilnehmer>, kurse: map<int, Kurs>, rows: seq<TeilnehmerKurs>,
                         dto: AnwesenheitDto)
    ensures UpsertError(teilnehmer, kurse, rows, dto).None? <==>
              (dto.teilnehmerId in teilnehmer && dto.kursId in kurse &&
               exists i :: 0 <= i < |rows| && rows[i].teilnehmerId == dto.teilnehmerId && rows[i].kursId == dto.kursId)
    ensures UpsertError(teilnehmer, kurse, rows, dto) == Some(NotFound) <==>
              (dto.teilnehmerId !in teilnehmer || dto.kursId !in kurse)
    ensures (dto.teilnehmerId in teilnehmer && dto.kursId in kurse &&
             exists i :: 0 <= i < |rows| && PairKey(rows[i]) == (dto.teilnehmerId, dto.kursId) && rows[i].status == Abgebrochen)
            ==> UpsertError(teilnehmer, kurse, rows, dto).None?
  {
    if dto.teilnehmerId in teilnehmer && dto.kursId in kurse {
      if exists i :: 0 <= i < |rows| && rows[i].teilnehmerId == dto.teilnehmerId && rows[i].kursId == dto.kursId {
        var i :| 0 <= i < |rows| && rows[i].teilnehmerId == dto.teilnehmerId && rows[i].kursId == dto.kursId;
        assert !(FindEnrollment(rows, dto.teilnehmerId, dto.kursId).None?);
      }
    }
  }

  /** The attendance table after an upsert, the id counter, and the saved record. */
  datatype Upsert = Upsert(records: seq<Anwesenheit>, nextId: int, saved: Anwesenheit)

  /** The state change of a passing createOrUpdateAnwesenheit: an existing record
      for the date gets the three new values; otherwise a new record is appended. */
  function Upserted(records: seq<Anwesenheit>, nextId: int, dto: AnwesenheitDto): (o: Upsert)
    ensures TripleKey(o.saved) == (dto.teilnehmerId, dto.kursId, dto.datum)
    ensures o.saved.anwesend == dto.anwesend && o.saved.entschuldigt == dto.entschuldigt
    ensures o.saved.bemerkung == dto.bemerkung
    ensures nextId <= o.nextId <= nextId + 1
  {
    match FindRecord(records, dto.teilnehmerId, dto.kursId, dto.datum)
    case Some(i) =>
      var a := records[i].(anwesend := dto.anwesend, entschuldigt := dto.entschuldigt, bemerkung := dto.bemerkung);
      Upsert(records[i := a], nextId, a)
    case None =>
      var a := Anwesenheit(nextId, dto.teilnehmerId, dto.kursId, dto.datum, dto.anwesend, dto.entschuldigt, dto.bemerkung);
      Upsert(records + [a], nextId + 1, a)
  }

  /** An upsert keeps every attendance constraint; afterwards the saved record is
      the one record for its (student, course, date). */
  lemma UpsertKeepsValid(records: seq<Anwesenheit>, students: set<int>, courses: set<int>, nextId: int,
                         dto: AnwesenheitDto)
    requires AttendanceValid(records, students, courses, nextId)
    requires dto.teilnehmerId in students && dto.kursId in courses
    ensures AttendanceValid(Upserted(records, nextId, dto).records, students, courses, Upserted(records, nextId, dto).nextId)
    ensures FindRecord(Upserted(records, nextId, dto).records, dto.teilnehmerId, dto.kursId, dto.datum).Some?
  {
    var o := Upserted(records, nextId, dto);
    match FindRecord(records, dto.teilnehmerId, dto.kursId, dto.datum)
    case Some(i) =>
      UpdateUniqueKeys(records, i, o.saved, AnwesenheitId);
      UpdateUniqueKeys(records, i, o.saved, TripleKey);
      assert o.records[i] == o.saved;
    case None =>
      AppendUniqueKeys(records, o.saved, AnwesenheitId);
      AppendUniqueKeys(records, o.saved, TripleKey);
      assert o.records[|records|] == o.saved;
  }

  /** An upsert leaves every record of another (student, course, date) in place. */
  lemma UpsertKeepsOthers(records: seq<Anwesenheit>, nextId: int, dto: AnwesenheitDto, j: nat)
    requires j < |records| && TripleKey(records[j]) != (dto.teilnehmerId, dto.kursId, dto.datum)
    ensures j < |Upserted(records, nextId, dto).records|
    ensures Upserted(records, nextId, dto).records[j] == records[j]
  {
  }

  /** Under unique (student, course, date) keys, the record the upsert saved is the
      one a later lookup finds. */
  lemma {:induction false} FindAfterUpsert(records: seq<Anwesenheit>, nextId: int, dto: AnwesenheitDto)
    requires UniqueKeys(records, TripleKey)
    ensures FindRecord(Upserted(records, nextId, dto).records, dto.teilnehmerId, dto.kursId, dto.datum)
            == Some(FindRecordPosition(records, dto))
  {
    var o := Upserted(records, nextId, dto);
    var p := IsTriple(dto.teilnehmerId, dto.kursId, dto.datum);
    match FindRecord(records, dto.teilnehmerId, dto.kursId, dto.datum)
    case Some(i) =>
      FirstIndexIsFirst(records, p);
      FirstIndexAt(o.records, p, i);
    case None =>
      FirstIndexAt(o.records, p, |records|);
  }

  /** Where the upsert leaves the record of its key. */
  function FindRecordPosition(records: seq<Anwesenheit>, dto: AnwesenheitDto): nat {
    match FindRecord(records, dto.teilnehmerId, dto.kursId, dto.datum)
    case Some(i) => i
    case None => |records|
  }

  /** The first match is at `i` when `i` matches and nothing before it does. */
  lemma {:induction false} FirstIndexAt<T>(s: seq<T>, p: T -> bool, i: nat)
    requires i < |s| && p(s[i])
    requires forall j :: 0 <= j < i ==> !p(s[j])
    ensures FirstIndex(s, p) == Some(i)
  {
    if i > 0 {
      assert !p(s[0]);
      forall j | 0 <= j < i - 1 ensures !p(s[1..][j]) {
        assert s[1..][j] == s[j + 1];
      }
      FirstIndexAt(s[1..], p, i - 1);
    }
  }

  /** Upserting the same entry twice is the same as upserting it once, and a second
      entry for the same date overwrites the first in place: no record is added,
      the id and counter stay, and the saved record carries the second values. */
  lemma UpsertLastWins(records: seq<Anwesenheit>, nextId: int, first: AnwesenheitDto, second: AnwesenheitDto)
    requires UniqueKeys(records, TripleKey)
    requires (first.teilnehmerId, first.kursId, first.datum) == (second.teilnehmerId, second.kursId, second.datum)
    ensures var o1 := Upserted(records, nextId, first);
            var o2 := Upserted(o1.records, o1.nextId, second);
            && |o2.records| == |o1.records|
            && o2.nextId == o1.nextId
            && o2.saved == o1.saved.(anwesend := second.anwesend, entschuldigt := second.entschuldigt,
                                     bemerkung := second.bemerkung)
            && o2.records == o1.records[FindRecordPosition(records, first) := o2.saved]
    ensures first == second ==> Upserted(Upserted(records, nextId, first).records,
                                         Upserted(records, nextId, first).nextId, second)
                                == Upserted(records, nextId, first)
  {
    var o1 := Upserted(records, nextId, first);
    FindAfterUpsert(records, nextId, first);
    var k := FindRecordPosition(records, first);
    assert FindRecord(o1.records, first.teilnehmerId, first.kursId, first.datum) == Some(k);
    assert o1.records[k] == o1.saved;
    if first == second {
      assert o1.records[k := o1.saved] == o1.records;
    }
  }

  /** Filtering after replacing one element by another with the same verdict keeps the length. */
  lemma {:induction false} FilterUpdateLength<T>(s: seq<T>, p: T -> bool, i: nat, x: T)
    requires i < |s| && p(s[i]) == p(x)
    ensures |Filter(s[i := x], p)| == |Filter(s, p)|
  {
    if i > 0 {
      assert s[i := x][1..] == s[1..][i - 1 := x];
      FilterUpdateLength(s[1..], p, i - 1, x);
    }
  }

  /** The pair's number of recorded days grows by one exactly when the upsert adds
      a new date, and stays the same when it overwrites one. */
  lemma UpsertTotalDays(records: seq<Anwesenheit>, nextId: int, dto: AnwesenheitDto)
    ensures var before := AnwesenheitStatistik(records, dto.teilnehmerId, dto.kursId).totalDays;
            var after := AnwesenheitStatistik(Upserted(records, nextId, dto).records, dto.teilnehmerId, dto.kursId).totalDays;
            after == before + (if FindRecord(records, dto.teilnehmerId, dto.kursId, dto.datum).Some? then 0 else 1)
  {
    var o := Upserted(records, nextId, dto);
    var p := OfPair(dto.teilnehmerId, dto.kursId);
    match FindRecord(records, dto.teilnehmerId, dto.kursId, dto.datum)
    case Some(i) =>
      FilterUpdateLength(records, p, i, o.saved);
    case None =>
      FilterConcat(records, [o.saved], p);
  }

  /** createOrUpdateAnwesenheit. */
  method CreateOrUpdateAnwesenheit(db: Database, dto: AnwesenheitDto) returns (r: Result<Anwesenheit>)
    requires db.Valid()
    modifies db
    ensures db.Valid()
    ensures var e := UpsertError(old(db.teilnehmer), old(db.kurse), old(db.enrollments), dto);
            if e.Some? then r == Err(e.value) && unchanged(db)
            else
              var o := Upserted(old(db.anwesenheiten), old(db.nextId), dto);
              && r == Ok(o.saved)
              && db.anwesenheiten == o.records
              && db.nextId == o.nextId
    ensures unchanged(db`kurse, db`kurstypen, db`kursraeume, db`trainer, db`teilnehmer, db`enrollments, db`stundenplaene)
  {
    if dto.teilnehmerId !in db.teilnehmer {
      return Err(NotFound);
    }
    if dto.kursId !in db.kurse {
      return Err(NotFound);
    }
    if FindEnrollment(db.enrollments, dto.teilnehmerId, dto.kursId).None? {
      return Err(NotEnrolled);
    }
    var o := Upserted(db.anwesenheiten, db.nextId, dto);
    UpsertKeepsValid(db.anwesenheiten, db.teilnehmer.Keys, db.kurse.Keys, db.nextId, dto);
    NewAttendance(db.kurse.Keys, db.teilnehmer.Keys, db.enrollments, db.anwesenheiten, o.records,
                  db.stundenplaene, db.nextId, o.nextId);
    db.anwesenheiten := o.records;
    db.nextId := o.nextId;
    r := Ok(o.saved);
  }

  // ---------------------------------------------------------------------------
  // Bulk
  // ---------------------------------------------------------------------------

  /** The single-entry request the bulk loop builds from one line. */
  function EntryDto(kursId: int, datum: Day, e: BulkEntry): (d: AnwesenheitDto)
    ensures d.kursId == kursId && d.datum == datum && d.teilnehmerId == e.teilnehmerId
  {
    AnwesenheitDto(e.teilnehmerId, kursId, datum, e.anwesend, e.entschuldigt, e.bemerkung)
  }

  /** The attendance table, the id counter and the collected results after the
      bulk loop has processed `entries`. */
  datatype Bulk = Bulk(records: seq<Anwesenheit>, nextId: int, results: seq<Anwesenheit>)

  /** The bulk loop on values: each entry in input order is upserted with the
      bulk's course and date; an entry whose checks fail is skipped. */
  function BulkApplied(teilnehmer: map<int, Teilnehmer>, kurse: map<int, Kurs>, rows: seq<TeilnehmerKurs>,
                       records: seq<Anwesenheit>, nextId: int, kursId: int, datum: Day,
                       entries: seq<BulkEntry>): (b: Bulk)
    ensures |b.results| <= |entries|
    decreases |entries|
  {
    if entries == [] then Bulk(records, nextId, [])
    else
      var prev := BulkApplied(teilnehmer, kurse, rows, records, nextId, kursId, datum, entries[..|entries| - 1]);
      var dto := EntryDto(kursId, datum, entries[|entries| - 1]);
      if UpsertError(teilnehmer, kurse, rows, dto).Some? then prev
      else
        var o := Upserted(prev.records, prev.nextId, dto);
        Bulk(o.records, o.nextId, prev.results + [o.saved])
  }

  /** The entries of a bulk request that pass the single-entry checks. */
  function Accepted(teilnehmer: map<int, Teilnehmer>, kurse: map<int, Kurs>, rows: seq<TeilnehmerKurs>,
                    kursId: int, datum: Day): BulkEntry -> bool
  {
    (e: BulkEntry) => UpsertError(teilnehmer, kurse, rows, EntryDto(kursId, datum, e)).None?
  }

  /** A saved record carries a bulk entry: its student, the bulk's course and date,
      and the entry's values. */
  predicate Carries(a: Anwesenheit, e: BulkEntry, kursId: int, datum: Day) {
    && TripleKey(a) == (e.teilnehmerId, kursId, datum)
    && a.anwesend == e.anwesend && a.entschuldigt == e.entschuldigt && a.bemerkung == e.bemerkung
  }

  /** Extending both lists by a record that carries its entry keeps them aligned. */
  lemma CarriesAppend(results: seq<Anwesenheit>, acc: seq<BulkEntry>, x: Anwesenheit, e: BulkEntry, kursId: int, datum: Day)
    requires |results| == |acc| && forall i :: 0 <= i < |acc| ==> Carries(results[i], acc[i], kursId, datum)
    requires Carries(x, e, kursId, datum)
    ensures |results + [x]| == |acc + [e]|
    ensures forall i :: 0 <= i < |acc + [e]| ==> Carries((results + [x])[i], (acc + [e])[i], kursId, datum)
  {
    forall i | 0 <= i < |acc + [e]| ensures Carries((results + [x])[i], (acc + [e])[i], kursId, datum) {
      if i < |acc| {
        assert (results + [x])[i] == results[i] && (acc + [e])[i] == acc[i];
      }
    }
  }

  /** The results are exactly the accepted entries, in input order: one saved
      record per accepted entry, carrying that entry. */
  lemma {:induction false} BulkResults(teilnehmer: map<int, Teilnehmer>, kurse: map<int, Kurs>, rows: seq<TeilnehmerKurs>,
                                       records: seq<Anwesenheit>, nextId: int, kursId: int, datum: Day,
                                       entries: seq<BulkEntry>)
    ensures var b := BulkApplied(teilnehmer, kurse, rows, records, nextId, kursId, datum, entries);
            var acc := Filter(entries, Accepted(teilnehmer, kurse, rows, kursId, datum));
            && |b.results| == |acc|
            && forall i :: 0 <= i < |acc| ==> Carries(b.results[i], acc[i], kursId, datum)
    decreases |entries|
  {
    if entries != [] {
      var n := |entries| - 1;
      var p := Accepted(teilnehmer, kurse, rows, kursId, datum);
      var e := entries[n];
      var prev := BulkApplied(teilnehmer, kurse, rows, records, nextId, kursId, datum, entries[..n]);
      var b := BulkApplied(teilnehmer, kurse, rows, records, nextId, kursId, datum, entries);
      BulkResults(teilnehmer, kurse, rows, records, nextId, kursId, datum, entries[..n]);
      assert entries == entries[..n] + [e];
      FilterConcat(entries[..n], [e], p);
      var accPrev := Filter(entries[..n], p);
      var acc := Filter(entries, p);
      FilterSingleton(e, p);
      if p(e) {
        var o := Upserted(prev.records, prev.nextId, EntryDto(kursId, datum, e));
        assert b.results == prev.results + [o.saved];
        assert acc == accPrev + [e];
        CarriesAppend(prev.results, accPrev, o.saved, e, kursId, datum);
      } else {
        assert b == prev && acc == accPrev;
      }
    }
  }

  /** The bulk loop keeps every attendance constraint. */
  lemma {:induction false} BulkKeepsValid(teilnehmer: map<int, Teilnehmer>, kurse: map<int, Kurs>, rows: seq<TeilnehmerKurs>,
                                          records: seq<Anwesenheit>, nextId: int, kursId: int, datum: Day,
                                          entries: seq<BulkEntry>)
    requires AttendanceValid(records, teilnehmer.Keys, kurse.Keys, nextId)
    ensures var b := BulkApplied(teilnehmer, kurse, rows, records, nextId, kursId, datum, entries);
            AttendanceValid(b.records, teilnehmer.Keys, kurse.Keys, b.nextId) && nextId <= b.nextId
    decreases |entries|
  {
    if entries != [] {
      var n := |entries| - 1;
      BulkKeepsValid(teilnehmer, kurse, rows, records, nextId, kursId, datum, entries[..n]);
      var prev := BulkApplied(teilnehmer, kurse, rows, records, nextId, kursId, datum, entries[..n]);
      var dto := EntryDto(kursId, datum, entries[n]);
      if UpsertError(teilnehmer, kurse, rows, dto).None? {
        UpsertKeepsValid(prev.records, teilnehmer.Keys, kurse.Keys, prev.nextId, dto);
      }
    }
  }

  /** createBulkAnwesenheit: the course must exist; then every entry is upserted in
      input order and entries that fail their checks are skipped. */
  method CreateBulkAnwesenheit(db: Database, kursId: int, datum: Day, entries: seq<BulkEntry>)
    returns (r: Result<seq<Anwesenheit>>)
    requires db.Valid()
    modifies db
    ensures db.Valid()
    ensures kursId !in old(db.kurse) ==> r == Err(NotFound) && unchanged(db)
    ensures kursId in old(db.kurse) ==>
              var b := BulkApplied(old(db.teilnehmer), old(db.kurse), old(db.enrollments),
                                   old(db.anwesenheiten), old(db.nextId), kursId, datum, entries);
              && r == Ok(b.results)
              && db.anwesenheiten == b.records
              && db.nextId == b.nextId
    ensures unchanged(db`kurse, db`kurstypen, db`kursraeume, db`trainer, db`teilnehmer, db`enrollments, db`stundenplaene)
  {
    if kursId !in db.kurse {
      return Err(NotFound);
    }
    var results: seq<Anwesenheit> := [];
    var i := 0;
    while i < |entries|
      invariant 0 <= i <= |entries|
      invariant db.Valid()
      invariant unchanged(db`kurse, db`kurstypen, db`kursraeume, db`trainer, db`teilnehmer, db`enrollments, db`stundenplaene)
      invariant var b := BulkApplied(db.teilnehmer, db.kurse, db.enrollments, old(db.anwesenheiten), old(db.nextId),
                                     kursId, datum, entries[..i]);
                results == b.results && db.anwesenheiten == b.records && db.nextId == b.nextId
    {
      assert entries[..i + 1][..i] == entries[..i];
      var one := CreateOrUpdateAnwesenheit(db, EntryDto(kursId, datum, entries[i]));
      if one.Ok? {
        results := results + [one.value];
      }
      i := i + 1;
    }
    assert entries[..|entries|] == entries;
    r := Ok(results);
  }

  // ---------------------------------------------------------------------------
  // Delete
  // ---------------------------------------------------------------------------

  /** The record with primary key `id`. */
  function HasRecordId(id: int): Anwesenheit -> bool {
    (a: Anwesenheit) => a.id == id
  }

  /** The records whose primary key is not `id`. */
  function RecordIdNot(id: int): Anwesenheit -> bool {
    (a: Anwesenheit) => a.id != id
  }

  /** Deleting an existing id under unique ids drops exactly one record. */
  lemma {:induction false} DeleteDropsOne(records: seq<Anwesenheit>, id: int)
    requires UniqueKeys(records, AnwesenheitId)
    requires exists i :: 0 <= i < |records| && records[i].id == id
    ensures |Filter(records, RecordIdNot(id))| == |records| - 1
  {
    assert UniqueKeys(records[1..], AnwesenheitId) by {
      forall a, b | 0 <= a < b < |records[1..]| ensures records[1..][a].id != records[1..][b].id {
        assert records[1..][a] == records[a + 1] && records[1..][b] == records[b + 1];
      }
    }
    if records[0].id == id {
      forall j | 0 <= j < |records[1..]| ensures RecordIdNot(id)(records[1..][j]) {
        assert records[1..][j] == records[j + 1];
      }
      FilterAll(records[1..], RecordIdNot(id));
    } else {
      var i :| 0 <= i < |records| && records[i].id == id;
      assert records[1..][i - 1] == records[i];
      DeleteDropsOne(records[1..], id);
    }
  }

  /** After a delete no record has the id and every other record is still there. */
  lemma DeleteRemovesExactly(records: seq<Anwesenheit>, id: int)
    ensures forall i :: 0 <= i < |Filter(records, RecordIdNot(id))| ==> Filter(records, RecordIdNot(id))[i].id != id
    ensures forall i :: 0 <= i < |records| && records[i].id != id ==> records[i] in Filter(records, RecordIdNot(id))
  {
    FilterMembers(records, RecordIdNot(id));
  }

  /** deleteAnwesenheit: an unknown id is NotFound; otherwise the record with that
      id is removed and the rest keep their order. */
  method DeleteAnwesenheit(db: Database, id: int) returns (r: Result<()>)
    requires db.Valid()
    modifies db
    ensures db.Valid()
    ensures (forall i :: 0 <= i < |old(db.anwesenheiten)| ==> old(db.anwesenheiten)[i].id != id) <==> r == Err(NotFound)
    ensures r.Err? ==> r.error == NotFound && unchanged(db)
    ensures r.Ok? ==> db.anwesenheiten == Filter(old(db.anwesenheiten), RecordIdNot(id))
    ensures unchanged(db`kurse, db`kurstypen, db`kursraeume, db`trainer, db`teilnehmer, db`enrollments,
                      db`stundenplaene, db`nextId)
  {
    if FirstIndex(db.anwesenheiten, HasRecordId(id)).None? {
      return Err(NotFound);
    }
    var records' := Filter(db.anwesenheiten, RecordIdNot(id));
    FilterMembers(db.anwesenheiten, RecordIdNot(id));
    FilterUniqueKeys(db.anwesenheiten, RecordIdNot(id), AnwesenheitId);
    FilterUniqueKeys(db.anwesenheiten, RecordIdNot(id), TripleKey);
    forall i | 0 <= i < |records'|
      ensures records'[i].id < db.nextId
      ensures records'[i].teilnehmerId in db.teilnehmer.Keys && records'[i].kursId in db.kurse.Keys
    {
      var j :| 0 <= j < |db.anwesenheiten| && db.anwesenheiten[j] == records'[i];
    }
    NewAttendance(db.kurse.Keys, db.teilnehmer.Keys, db.enrollments, db.anwesenheiten, records',
                  db.stundenplaene, db.nextId, db.nextId);
    db.anwesenheiten := records';
    r := Ok(());
  }
}
