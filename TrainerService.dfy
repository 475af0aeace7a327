/** TrainerService: the trainer directory with its active, available and
    per-department lists, lookup by id, update and soft delete. */
module TrainerService {
  import opened Common
  import opened Model
  import opened Dto
  import opened Store
  import KursService

  /** getAllTrainer (TrainerRepository.findByAktivTrue): exactly the active trainers. */
  function GetAllTrainer(trainer: map<int, Trainer>): (r: map<int, Trainer>)
    ensures forall id :: id in r <==> id in trainer && trainer[id].aktiv
    ensures forall id :: id in r ==> r[id] == trainer[id]
  {
    map id | id in trainer && trainer[id].aktiv :: trainer[id]
  }

  /** getVerfuegbareTrainer (findByStatusAndAktivTrue(verfuegbar)). */
  function GetVerfuegbareTrainer(trainer: map<int, Trainer>): (r: map<int, Trainer>)
    ensures forall id :: id in r <==> id in trainer && trainer[id].status == Verfuegbar && trainer[id].aktiv
    ensures forall id :: id in r ==> r[id] == trainer[id]
  {
    map id | id in trainer && trainer[id].status == Verfuegbar && trainer[id].aktiv :: trainer[id]
  }

  /** getTrainerDtoByAbteilung (findByAbteilungIdAndAktivTrue). */
  function GetTrainerDtoByAbteilung(trainer: map<int, Trainer>, abteilungId: int): (r: map<int, Trainer>)
    ensures forall id :: id in r <==> id in trainer && trainer[id].abteilungId == abteilungId && trainer[id].aktiv
    ensures forall id :: id in r ==> r[id] == trainer[id]
  {
    map id | id in trainer && trainer[id].abteilungId == abteilungId && trainer[id].aktiv :: trainer[id]
  }

  /** The available and the per-department lists are parts of the active list. */
  lemma ListsWithinActive(trainer: map<int, Trainer>, abteilungId: int)
    ensures GetVerfuegbareTrainer(trainer).Keys <= GetAllTrainer(trainer).Keys
    ensures GetTrainerDtoByAbteilung(trainer, abteilungId).Keys <= GetAllTrainer(trainer).Keys
  {
  }

  /** getTrainerById: the trainer, active or not, or NotFound. */
  function GetTrainerById(trainer: map<int, Trainer>, id: int): (r: Result<Trainer>)
    ensures r.Ok? <==> id in trainer
    ensures r.Ok? ==> r.value == trainer[id]
    ensures r.Err? ==> r.error == NotFound
  {
    if id in trainer then Ok(trainer[id]) else Err(NotFound)
  }

  /** The trainer updateTrainer writes back: every field from the request except
      the department. */
  function UpdatedTrainer(t: Trainer, dto: TrainerDto): Trainer {
    t.(vorname := dto.vorname, nachname := dto.nachname, email := dto.email, telefon := dto.telefon,
       status := dto.status, qualifikationen := dto.qualifikationen,
       einstellungsdatum := dto.einstellungsdatum, aktiv := dto.aktiv)
  }

  /** An update never moves a trainer to another department, whatever the request
      says, and otherwise takes the request's values, so it is idempotent. */
  lemma UpdateKeepsDepartment(t: Trainer, dto: TrainerDto)
    ensures UpdatedTrainer(t, dto).abteilungId == t.abteilungId
    ensures UpdatedTrainer(t, dto).(abteilungId := dto.abteilungId)
            == Trainer(dto.vorname, dto.nachname, dto.email, dto.telefon, dto.abteilungId, dto.status,
                       dto.qualifikationen, dto.einstellungsdatum, dto.aktiv)
    ensures UpdatedTrainer(UpdatedTrainer(t, dto), dto) == UpdatedTrainer(t, dto)
  {
  }

  /** updateTrainer: an unknown id is NotFound; otherwise the fields are overwritten. */
  method UpdateTrainer(db: Database, id: int, dto: TrainerDto) returns (r: Result<Trainer>)
    requires db.Valid()
    modifies db
    ensures db.Valid()
    ensures id !in old(db.trainer) <==> r == Err(NotFound)
    ensures r.Err? ==> r.error == NotFound && unchanged(db)
    ensures r.Ok? ==> r.value == UpdatedTrainer(old(db.trainer)[id], dto) && db.trainer == old(db.trainer)[id := r.value]
    ensures unchanged(db`kurse, db`kurstypen, db`kursraeume, db`teilnehmer, db`enrollments, db`anwesenheiten,
                      db`stundenplaene, db`nextId)
  {
    if id !in db.trainer {
      return Err(NotFound);
    }
    var t := UpdatedTrainer(db.trainer[id], dto);
    db.trainer := db.trainer[id := t];
    r := Ok(t);
  }

  /** The directory after the soft delete of `id`. */
  function SoftDeleted(trainer: map<int, Trainer>, id: int): map<int, Trainer>
    requires id in trainer
  {
    trainer[id := trainer[id].(aktiv := false)]
  }

  /** A soft delete keeps the record, which the lookup still finds; the trainer
      leaves all three lists; nobody else changes; and it is idempotent. */
  lemma SoftDeleteEffect(trainer: map<int, Trainer>, id: int, abteilungId: int)
    requires id in trainer
    ensures SoftDeleted(trainer, id).Keys == trainer.Keys
    ensures GetTrainerById(SoftDeleted(trainer, id), id) == Ok(trainer[id].(aktiv := false))
    ensures id !in GetAllTrainer(SoftDeleted(trainer, id))
    ensures id !in GetVerfuegbareTrainer(SoftDeleted(trainer, id))
    ensures id !in GetTrainerDtoByAbteilung(SoftDeleted(trainer, id), abteilungId)
    ensures forall other :: other != id ==> (other in GetAllTrainer(SoftDeleted(trainer, id)) <==> other in GetAllTrainer(trainer))
    ensures SoftDeleted(SoftDeleted(trainer, id), id) == SoftDeleted(trainer, id)
  {
  }

  /** Course creation and update resolve the trainer by existence only: a
      soft-deleted trainer can still be assigned to a course. */
  lemma DeletedTrainerStillAssignable(kurse: map<int, Kurs>, kurstypen: set<int>, kursraeume: set<int>,
                                      trainer: map<int, Trainer>, id: int, kursId: int, dto: KursDto)
    requires id in trainer
    requires dto.kurstypId.Some? && dto.kursraumId.Some? && dto.trainerId.Some?
    ensures KursService.CreateKursError(kurstypen, kursraeume, SoftDeleted(trainer, id), dto)
            == KursService.CreateKursError(kurstypen, kursraeume, trainer, dto)
    ensures KursService.UpdateKursError(kurse, kurstypen, kursraeume, SoftDeleted(trainer, id), kursId, dto)
            == KursService.UpdateKursError(kurse, kurstypen, kursraeume, trainer, kursId, dto)
  {
  }

  /** deleteTrainer: an unknown id is NotFound; otherwise aktiv becomes false. */
  method DeleteTrainer(db: Database, id: int) returns (r: Result<()>)
    requires db.Valid()
    modifies db
    ensures db.Valid()
    ensures id !in old(db.trainer) <==> r == Err(NotFound)
    ensures r.Err? ==> r.error == NotFound && unchanged(db)
    ensures r.Ok? ==> db.trainer == SoftDeleted(old(db.trainer), id)
    ensures unchanged(db`kurse, db`kurstypen, db`kursraeume, db`teilnehmer, db`enrollments, db`anwesenheiten,
                      db`stundenplaene, db`nextId)
  {
    if id !in db.trainer {
      return Err(NotFound);
    }
    db.trainer := SoftDeleted(db.trainer, id);
    r := Ok(());
  }
}
