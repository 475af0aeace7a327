/** The course registry: creating, updating and deleting courses, the status
    overwrite, the guarded counter changes and the availability queries. */
module KursService {
  import opened Common
  import opened Model
  import opened Dto
  import opened Store

  /** findVerfuegbareKurse: a seat is open and the course is geplant. */
  predicate IsVerfuegbar(k: Kurs) {
    k.aktuelleTeilnehmer < k.maxTeilnehmer && k.status == Geplant
  }

  /** getAktuelleKurse: the course is geplant or laufend. */
  predicate IsAktuell(k: Kurs) {
    k.status == Geplant || k.status == Laufend
  }

  /** getVerfuegbareKurse: exactly the courses with an open seat that are geplant. */
  function GetVerfuegbareKurse(kurse: map<int, Kurs>): (r: map<int, Kurs>)
    ensures forall id :: id in r <==> id in kurse && kurse[id].aktuelleTeilnehmer < kurse[id].maxTeilnehmer
                                        && kurse[id].status == Geplant
    ensures forall id :: id in r ==> r[id] == kurse[id]
  {
    map id | id in kurse && IsVerfuegbar(kurse[id]) :: kurse[id]
  }

  /** getAktuelleKurse: exactly the courses that are geplant or laufend. */
  function GetAktuelleKurse(kurse: map<int, Kurs>): (r: map<int, Kurs>)
    ensures forall id :: id in r <==> id in kurse && (kurse[id].status == Geplant || kurse[id].status == Laufend)
    ensures forall id :: id in r ==> r[id] == kurse[id]
  {
    map id | id in kurse && IsAktuell(kurse[id]) :: kurse[id]
  }

  /** Every available course is a current one with an open seat; a running course
      is never offered. */
  lemma AvailableCourses(kurse: map<int, Kurs>, kursId: int)
    ensures kursId in GetVerfuegbareKurse(kurse) ==> kursId in GetAktuelleKurse(kurse)
    ensures kursId in GetVerfuegbareKurse(kurse) ==> HasOpenSeats(kurse[kursId])
    ensures kursId in kurse && kurse[kursId].status == Laufend ==> kursId !in GetVerfuegbareKurse(kurse)
  {
  }

  /** The failure createKurs reports, in its order: the date range, the participant
      count, the Kurstyp, Kursraum and Trainer lookups, and finally the INSERT of
      `save`, which the NOT NULL start-date column rejects. None means it is stored. */
  function CreateKursError(kurstypen: set<int>, kursraeume: set<int>, trainer: map<int, Trainer>, dto: KursDto): Option<Error>
    requires dto.kurstypId.Some? && dto.kursraumId.Some? && dto.trainerId.Some?
  {
    if dto.startdatum.Some? && dto.enddatum.Some? && !(dto.enddatum.value > dto.startdatum.value) then Some(InvalidRange)
    else if dto.aktuelleTeilnehmer.Some? && dto.maxTeilnehmer.Some?
            && dto.aktuelleTeilnehmer.value > dto.maxTeilnehmer.value then Some(InvalidCount)
    else if dto.kurstypId.value !in kurstypen then Some(NotFound)
    else if dto.kursraumId.value !in kursraeume then Some(NotFound)
    else if dto.trainerId.value !in trainer then Some(NotFound)
    else if dto.startdatum.None? then Some(NullColumn)
    else None
  }

  /** The course createKurs stores: the DTO's fields with its references resolved. */
  function NewKurs(dto: KursDto): Kurs
    requires dto.kurstypId.Some? && dto.kursraumId.Some? && dto.trainerId.Some?
    requires dto.maxTeilnehmer.Some? && dto.aktuelleTeilnehmer.Some?
    requires dto.startdatum.Some?
  {
    Kurs(dto.kursName, dto.kurstypId.value, dto.kursraumId.value, dto.trainerId.value,
         dto.startdatum.value, dto.enddatum, dto.maxTeilnehmer.value, dto.aktuelleTeilnehmer.value,
         dto.status, dto.beschreibung)
  }

  /** The checks of createKurs are the DTO's own predicates: the date check fails
      exactly when isValidDateRange is false, the count check (reached only with a
      valid range) exactly when isParticipantCountValid is false, a missing start
      date fails only after every other check, and a course that
      passes every check and the declared bounds meets the capacity invariant. */
  lemma CreateKursChecks(kurstypen: set<int>, kursraeume: set<int>, trainer: map<int, Trainer>, dto: KursDto)
    requires dto.kurstypId.Some? && dto.kursraumId.Some? && dto.trainerId.Some?
    ensures CreateKursError(kurstypen, kursraeume, trainer, dto) == Some(InvalidRange) <==> !dto.IsValidDateRange()
    ensures dto.IsValidDateRange() ==>
              (CreateKursError(kurstypen, kursraeume, trainer, dto) == Some(InvalidCount) <==> !dto.IsParticipantCountValid())
    ensures CreateKursError(kurstypen, kursraeume, trainer, dto).None? <==>
              && dto.IsValidDateRange() && dto.IsParticipantCountValid()
              && dto.kurstypId.value in kurstypen && dto.kursraumId.value in kursraeume && dto.trainerId.value in trainer
              && dto.startdatum.Some?
    ensures dto.startdatum.None? ==>
              (CreateKursError(kurstypen, kursraeume, trainer, dto) == Some(NullColumn) <==>
               dto.IsParticipantCountValid() && dto.kurstypId.value in kurstypen && dto.kursraumId.value in kursraeume
               && dto.trainerId.value in trainer)
    ensures (CreateKursError(kurstypen, kursraeume, trainer, dto).None? && dto.SatisfiesBounds()
             && dto.maxTeilnehmer.Some? && dto.aktuelleTeilnehmer.Some?) ==> CapacityOk(NewKurs(dto))
  {
  }

  /** createKurs. Stores the course under a fresh id only when every check passes;
      any failure leaves the store as it was. */
  method CreateKurs(db: Database, dto: KursDto) returns (r: Result<int>)
    requires db.Valid()
    requires dto.kurstypId.Some? && dto.kursraumId.Some? && dto.trainerId.Some?
    requires dto.maxTeilnehmer.Some? && dto.aktuelleTeilnehmer.Some?
    modifies db
    ensures db.Valid()
    ensures var e := CreateKursError(old(db.kurstypen), old(db.kursraeume), old(db.trainer), dto);
            if e.Some? then r == Err(e.value) && unchanged(db)
            else && r == Ok(old(db.nextId)) && old(db.nextId) !in old(db.kurse)
                 && db.kurse == old(db.kurse)[old(db.nextId) := NewKurs(dto)]
                 && db.nextId == old(db.nextId) + 1
                 && unchanged(db`kurstypen, db`kursraeume, db`trainer, db`teilnehmer,
                              db`enrollments, db`anwesenheiten, db`stundenplaene)
  {
    if dto.startdatum.Some? && dto.enddatum.Some? {
      if !(dto.enddatum.value > dto.startdatum.value) {
        return Err(InvalidRange);
      }
    }
    if dto.aktuelleTeilnehmer.Some? && dto.maxTeilnehmer.Some? {
      if dto.aktuelleTeilnehmer.value > dto.maxTeilnehmer.value {
        return Err(InvalidCount);
      }
    }
    if dto.kurstypId.value !in db.kurstypen {
      return Err(NotFound);
    }
    if dto.kursraumId.value !in db.kursraeume {
      return Err(NotFound);
    }
    if dto.trainerId.value !in db.trainer {
      return Err(NotFound);
    }
    if dto.startdatum.None? {
      return Err(NullColumn);
    }
    var id := db.nextId;
    NewCourse(db.kurse, NewKurs(dto), db.teilnehmer.Keys, db.enrollments, db.anwesenheiten, db.stundenplaene, id);
    db.kurse := db.kurse[id := NewKurs(dto)];
    db.nextId := id + 1;
    r := Ok(id);
  }

  /** The failure updateKurs reports, in its order: the course, the date range, the
      Kurstyp, Kursraum and Trainer lookups for the references that are given, and
      finally the flush at commit, which the NOT NULL start-date column rejects. */
  function UpdateKursError(kurse: map<int, Kurs>, kurstypen: set<int>, kursraeume: set<int>,
                           trainer: map<int, Trainer>, id: int, dto: KursDto): Option<Error>
  {
    if id !in kurse then Some(NotFound)
    else if dto.startdatum.Some? && dto.enddatum.Some? && !(dto.enddatum.value > dto.startdatum.value) then Some(InvalidRange)
    else if dto.kurstypId.Some? && dto.kurstypId.value !in kurstypen then Some(NotFound)
    else if dto.kursraumId.Some? && dto.kursraumId.value !in kursraeume then Some(NotFound)
    else if dto.trainerId.Some? && dto.trainerId.value !in trainer then Some(NotFound)
    else if dto.startdatum.None? then Some(NullColumn)
    else None
  }

  /** The value of an optional reference, or the one kept when it is absent. */
  function OrKeep(ref: Option<int>, current: int): int {
    if ref.Some? then ref.value else current
  }

  /** The course updateKurs writes back: name, dates, maximum, status and description
      from the DTO; each given reference replaces the old one; the counter is kept. */
  function UpdatedKurs(k: Kurs, dto: KursDto): Kurs
    requires dto.maxTeilnehmer.Some? && dto.startdatum.Some?
  {
    k.(kursName := dto.kursName, startdatum := dto.startdatum.value, enddatum := dto.enddatum,
       maxTeilnehmer := dto.maxTeilnehmer.value, status := dto.status, beschreibung := dto.beschreibung,
       kurstypId := OrKeep(dto.kurstypId, k.kurstypId),
       kursraumId := OrKeep(dto.kursraumId, k.kursraumId),
       trainerId := OrKeep(dto.trainerId, k.trainerId))
  }

  /** What updateKurs keeps and what it overwrites. */
  lemma UpdatedKursFields(k: Kurs, dto: KursDto)
    requires dto.maxTeilnehmer.Some? && dto.startdatum.Some?
    ensures UpdatedKurs(k, dto).aktuelleTeilnehmer == k.aktuelleTeilnehmer
    ensures UpdatedKurs(k, dto).maxTeilnehmer == dto.maxTeilnehmer.value
    ensures UpdatedKurs(k, dto).startdatum == dto.startdatum.value
    ensures UpdatedKurs(k, dto).status == dto.status
    ensures dto.kurstypId.None? ==> UpdatedKurs(k, dto).kurstypId == k.kurstypId
    ensures dto.kursraumId.None? ==> UpdatedKurs(k, dto).kursraumId == k.kursraumId
    ensures dto.trainerId.None? ==> UpdatedKurs(k, dto).trainerId == k.trainerId
    ensures UpdatedKurs(UpdatedKurs(k, dto), dto) == UpdatedKurs(k, dto)
  {
  }

  /** updateKurs does not re-check the counter against the new maximum: a course
      with five participants updated to a maximum of three passes every check and
      leaves the capacity invariant broken. */
  lemma UpdateKursCanBreakCapacity()
    ensures var k := Kurs("A1", 1, 1, 1, 10, Some(20), 12, 5, Geplant, "");
            var dto := KursDto("A1", None, None, None, Some(10), Some(20), Some(3), Some(0), Geplant, "");
            && CapacityOk(k)
            && UpdateKursError(map[1 := k], {}, {}, map[], 1, dto).None?
            && !CapacityOk(UpdatedKurs(k, dto))
  {
  }

  /** updateKurs. On any failure, including a reference lookup that fails after the
      fields were set, the transaction rolls back and the store is unchanged. */
  method UpdateKurs(db: Database, id: int, dto: KursDto) returns (r: Result<Kurs>)
    requires db.Valid()
    requires dto.maxTeilnehmer.Some?
    modifies db
    ensures db.Valid()
    ensures var e := UpdateKursError(old(db.kurse), old(db.kurstypen), old(db.kursraeume), old(db.trainer), id, dto);
            if e.Some? then r == Err(e.value) && unchanged(db)
            else && r == Ok(UpdatedKurs(old(db.kurse)[id], dto))
                 && db.kurse == old(db.kurse)[id := r.value]
                 && unchanged(db`nextId, db`kurstypen, db`kursraeume, db`trainer, db`teilnehmer,
                              db`enrollments, db`anwesenheiten, db`stundenplaene)
  {
    if id !in db.kurse {
      return Err(NotFound);
    }
    if dto.startdatum.Some? && dto.enddatum.Some? {
      if !(dto.enddatum.value > dto.startdatum.value) {
        return Err(InvalidRange);
      }
    }
    var kurs := db.kurse[id];
    kurs := kurs.(kursName := dto.kursName, enddatum := dto.enddatum,
                  maxTeilnehmer := dto.maxTeilnehmer.value, status := dto.status, beschreibung := dto.beschreibung);
    if dto.kurstypId.Some? {
      if dto.kurstypId.value !in db.kurstypen {
        return Err(NotFound);
      }
      kurs := kurs.(kurstypId := dto.kurstypId.value);
    }
    if dto.kursraumId.Some? {
      if dto.kursraumId.value !in db.kursraeume {
        return Err(NotFound);
      }
      kurs := kurs.(kursraumId := dto.kursraumId.value);
    }
    if dto.trainerId.Some? {
      if dto.trainerId.value !in db.trainer {
        return Err(NotFound);
      }
      kurs := kurs.(trainerId := dto.trainerId.value);
    }
    if dto.startdatum.None? {
      return Err(NullColumn);
    }
    kurs := kurs.(startdatum := dto.startdatum.value);
    assert kurs == UpdatedKurs(db.kurse[id], dto);
    SameCourses(db.kurse, id, kurs);
    db.kurse := db.kurse[id := kurs];
    r := Ok(kurs);
  }

  /** Overwriting a stored course keeps the set of courses. */
  lemma SameCourses(kurse: map<int, Kurs>, id: int, k: Kurs)
    requires id in kurse
    ensures kurse[id := k].Keys == kurse.Keys
  {
  }

  /** updateKursStatus: any status is accepted and nothing else changes. */
  method UpdateKursStatus(db: Database, id: int, status: KursStatus) returns (r: Result<Kurs>)
    requires db.Valid()
    modifies db
    ensures db.Valid()
    ensures id !in old(db.kurse) ==> r == Err(NotFound) && unchanged(db)
    ensures id in old(db.kurse) ==>
              && r == Ok(old(db.kurse)[id].(status := status))
              && db.kurse == old(db.kurse)[id := r.value]
              && unchanged(db`nextId, db`kurstypen, db`kursraeume, db`trainer, db`teilnehmer,
                           db`enrollments, db`anwesenheiten, db`stundenplaene)
  {
    if id !in db.kurse {
      return Err(NotFound);
    }
    var kurs := db.kurse[id].(status := status);
    SameCourses(db.kurse, id, kurs);
    db.kurse := db.kurse[id := kurs];
    r := Ok(kurs);
  }

  /** A status overwrite keeps the counter and the maximum, so it keeps the capacity
      invariant; it moves a course in or out of the availability lists. */
  lemma StatusUpdateKeepsCapacity(kurse: map<int, Kurs>, id: int, status: KursStatus)
    requires id in kurse && AllCapacityOk(kurse)
    ensures AllCapacityOk(kurse[id := kurse[id].(status := status)])
    ensures status == Laufend ==> id !in GetVerfuegbareKurse(kurse[id := kurse[id].(status := status)])
    ensures IsAktuell(kurse[id].(status := status)) <==> id in GetAktuelleKurse(kurse[id := kurse[id].(status := status)])
  {
  }

  /** addTeilnehmerToKurs: fails when the course is full, otherwise adds exactly one. */
  method AddTeilnehmerToKurs(db: Database, kursId: int) returns (r: Result<Kurs>)
    requires db.Valid()
    modifies db
    ensures db.Valid()
    ensures kursId !in old(db.kurse) ==> r == Err(NotFound) && unchanged(db)
    ensures kursId in old(db.kurse) && !HasOpenSeats(old(db.kurse)[kursId]) ==> r == Err(AtCapacity) && unchanged(db)
    ensures kursId in old(db.kurse) && HasOpenSeats(old(db.kurse)[kursId]) ==>
              && db.kurse == Incremented(old(db.kurse), kursId)
              && r == Ok(db.kurse[kursId])
              && unchanged(db`nextId, db`kurstypen, db`kursraeume, db`trainer, db`teilnehmer,
                           db`enrollments, db`anwesenheiten, db`stundenplaene)
  {
    if kursId !in db.kurse {
      return Err(NotFound);
    }
    var kurs := db.kurse[kursId];
    if kurs.aktuelleTeilnehmer >= kurs.maxTeilnehmer {
      return Err(AtCapacity);
    }
    CounterChangesKeepKeys(db.kurse, kursId);
    db.kurse := Incremented(db.kurse, kursId);
    r := Ok(db.kurse[kursId]);
  }

  /** removeTeilnehmerFromKurs (the counter only): fails when the counter is not
      positive, otherwise subtracts exactly one. */
  method RemoveTeilnehmerFromKurs(db: Database, kursId: int) returns (r: Result<Kurs>)
    requires db.Valid()
    modifies db
    ensures db.Valid()
    ensures kursId !in old(db.kurse) ==> r == Err(NotFound) && unchanged(db)
    ensures kursId in old(db.kurse) && old(db.kurse)[kursId].aktuelleTeilnehmer <= 0 ==> r == Err(NoParticipants) && unchanged(db)
    ensures kursId in old(db.kurse) && old(db.kurse)[kursId].aktuelleTeilnehmer > 0 ==>
              && db.kurse == Decremented(old(db.kurse), kursId)
              && r == Ok(db.kurse[kursId])
              && unchanged(db`nextId, db`kurstypen, db`kursraeume, db`trainer, db`teilnehmer,
                           db`enrollments, db`anwesenheiten, db`stundenplaene)
  {
    if kursId !in db.kurse {
      return Err(NotFound);
    }
    var kurs := db.kurse[kursId];
    if kurs.aktuelleTeilnehmer <= 0 {
      return Err(NoParticipants);
    }
    CounterChangesKeepKeys(db.kurse, kursId);
    db.kurse := Decremented(db.kurse, kursId);
    r := Ok(db.kurse[kursId]);
  }

  /** The counter changes of this service touch no enrollment row, so on a course
      whose counter matches its roster, either one leaves the two apart. */
  lemma CounterChangesBreakSync(kurse: map<int, Kurs>, rows: seq<TeilnehmerKurs>, kursId: int)
    requires kursId in kurse && CountersInSync(kurse, rows)
    ensures !CountersInSync(Incremented(kurse, kursId), rows)
    ensures !CountersInSync(Decremented(kurse, kursId), rows)
  {
    assert Incremented(kurse, kursId)[kursId].aktuelleTeilnehmer == ActiveCount(rows, kursId) + 1;
    assert Decremented(kurse, kursId)[kursId].aktuelleTeilnehmer == ActiveCount(rows, kursId) - 1;
  }

  /** deleteKurs: an unknown id is NotFound; otherwise the course is deleted and,
      through the entity's cascade, its enrollment rows, schedule slots and
      attendance records with it. */
  method DeleteKurs(db: Database, id: int) returns (r: Result<()>)
    requires db.Valid()
    modifies db
    ensures db.Valid()
    ensures id !in old(db.kurse) ==> r == Err(NotFound) && unchanged(db)
    ensures id in old(db.kurse) ==>
              && r == Ok(())
              && db.kurse == old(db.kurse) - {id}
              && db.enrollments == Filter(old(db.enrollments), RowNotOf(id))
              && db.anwesenheiten == Filter(old(db.anwesenheiten), RecordNotOf(id))
              && db.stundenplaene == Filter(old(db.stundenplaene), SlotNotOf(id))
              && unchanged(db`nextId, db`kurstypen, db`kursraeume, db`trainer, db`teilnehmer)
  {
    if id !in db.kurse {
      return Err(NotFound);
    }
    CascadeDelete(db.kurse.Keys, db.teilnehmer.Keys, db.enrollments, db.anwesenheiten, db.stundenplaene, db.nextId, id);
    assert (db.kurse - {id}).Keys == db.kurse.Keys - {id};
    db.enrollments := Filter(db.enrollments, RowNotOf(id));
    db.anwesenheiten := Filter(db.anwesenheiten, RecordNotOf(id));
    db.stundenplaene := Filter(db.stundenplaene, SlotNotOf(id));
    db.kurse := db.kurse - {id};
    r := Ok(());
  }

  /** The cascade leaves no trace of the course and keeps every other course's
      roster, so counters that matched their rosters still match. */
  lemma {:induction false} CascadeKeepsOtherRosters(kurse: map<int, Kurs>, rows: seq<TeilnehmerKurs>, id: int)
    requires CountersInSync(kurse, rows)
    ensures CountersInSync(kurse - {id}, Filter(rows, RowNotOf(id)))
    ensures forall i :: 0 <= i < |Filter(rows, RowNotOf(id))| ==> Filter(rows, RowNotOf(id))[i].kursId != id
  {
    FilterMembers(rows, RowNotOf(id));
    forall k | k in kurse - {id}
      ensures (kurse - {id})[k].aktuelleTeilnehmer == ActiveCount(Filter(rows, RowNotOf(id)), k)
    {
      forall x: TeilnehmerKurs | CurrentInKurs(k)(x) ensures RowNotOf(id)(x) { }
      FilterFilter(rows, RowNotOf(id), CurrentInKurs(k));
    }
  }
}
