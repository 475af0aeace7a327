/** TeilnehmerService: the student directory with its "active only" list,
    lookup by id, overwrite-style update and soft delete. */
module TeilnehmerService {
  import opened Common
  import opened Model
  import opened Dto
  import opened Store
  import TeilnehmerKursService
  import AnwesenheitService

  /** getAllTeilnehmer (TeilnehmerRepository.findByAktivTrue): exactly the active students. */
  function GetAllTeilnehmer(teilnehmer: map<int, Teilnehmer>): (r: map<int, Teilnehmer>)
    ensures forall id :: id in r <==> id in teilnehmer && teilnehmer[id].aktiv
    ensures forall id :: id in r ==> r[id] == teilnehmer[id]
  {
    map id | id in teilnehmer && teilnehmer[id].aktiv :: teilnehmer[id]
  }

  /** getTeilnehmerById: the student, active or not, or NotFound. */
  function GetTeilnehmerById(teilnehmer: map<int, Teilnehmer>, id: int): (r: Result<Teilnehmer>)
    ensures r.Ok? <==> id in teilnehmer
    ensures r.Ok? ==> r.value == teilnehmer[id]
    ensures r.Err? ==> r.error == NotFound
  {
    if id in teilnehmer then Ok(teilnehmer[id]) else Err(NotFound)
  }

  /** The student updateTeilnehmer writes back: all ten fields from the request. */
  function FromDto(dto: TeilnehmerDto): Teilnehmer {
    Teilnehmer(dto.vorname, dto.nachname, dto.email, dto.telefon, dto.geburtsdatum, dto.geschlecht,
               dto.staatsangehoerigkeit, dto.muttersprache, dto.anmeldedatum, dto.aktiv)
  }

  /** After an update the lookup returns the request's values, the active list
      follows the request's flag (an update can reactivate a deleted student), and
      every other student is untouched. */
  lemma UpdateTeilnehmerEffect(teilnehmer: map<int, Teilnehmer>, id: int, dto: TeilnehmerDto, other: int)
    requires id in teilnehmer
    ensures GetTeilnehmerById(teilnehmer[id := FromDto(dto)], id) == Ok(FromDto(dto))
    ensures FromDto(dto).vorname == dto.vorname && FromDto(dto).email == dto.email
    ensures FromDto(dto).anmeldedatum == dto.anmeldedatum && FromDto(dto).aktiv == dto.aktiv
    ensures id in GetAllTeilnehmer(teilnehmer[id := FromDto(dto)]) <==> dto.aktiv
    ensures other != id ==> GetTeilnehmerById(teilnehmer[id := FromDto(dto)], other) == GetTeilnehmerById(teilnehmer, other)
  {
  }

  /** updateTeilnehmer: an unknown id is NotFound; otherwise the ten fields are
      overwritten and the id kept. */
  method UpdateTeilnehmer(db: Database, id: int, dto: TeilnehmerDto) returns (r: Result<Teilnehmer>)
    requires db.Valid()
    modifies db
    ensures db.Valid()
    ensures id !in old(db.teilnehmer) <==> r == Err(NotFound)
    ensures r.Err? ==> r.error == NotFound && unchanged(db)
    ensures r.Ok? ==> r.value == FromDto(dto) && db.teilnehmer == old(db.teilnehmer)[id := r.value]
    ensures unchanged(db`kurse, db`kurstypen, db`kursraeume, db`trainer, db`enrollments, db`anwesenheiten,
                      db`stundenplaene, db`nextId)
  {
    if id !in db.teilnehmer {
      return Err(NotFound);
    }
    var t := FromDto(dto);
    OverwriteKeepsKeys(db.teilnehmer, id, t);
    db.teilnehmer := db.teilnehmer[id := t];
    r := Ok(t);
  }

  /** The directory after the soft delete of `id`. */
  function SoftDeleted(teilnehmer: map<int, Teilnehmer>, id: int): map<int, Teilnehmer>
    requires id in teilnehmer
  {
    teilnehmer[id := teilnehmer[id].(aktiv := false)]
  }

  /** A soft delete keeps the record, so the lookup still finds it with only the
      flag changed; it drops the student from the active list and no one else; and
      deleting twice is the same as deleting once. */
  lemma SoftDeleteEffect(teilnehmer: map<int, Teilnehmer>, id: int, other: int)
    requires id in teilnehmer
    ensures SoftDeleted(teilnehmer, id).Keys == teilnehmer.Keys
    ensures GetTeilnehmerById(SoftDeleted(teilnehmer, id), id) == Ok(teilnehmer[id].(aktiv := false))
    ensures id !in GetAllTeilnehmer(SoftDeleted(teilnehmer, id))
    ensures other != id ==> (other in GetAllTeilnehmer(SoftDeleted(teilnehmer, id)) <==> other in GetAllTeilnehmer(teilnehmer))
    ensures SoftDeleted(SoftDeleted(teilnehmer, id), id) == SoftDeleted(teilnehmer, id)
  {
  }

  /** The enrollment and attendance checks look at existence only: a soft-deleted
      student is treated exactly like an active one. */
  lemma DeletedStudentStillAccepted(teilnehmer: map<int, Teilnehmer>, kurse: map<int, Kurs>, rows: seq<TeilnehmerKurs>,
                                    id: int, kursId: int, dto: AnwesenheitDto)
    requires id in teilnehmer
    ensures TeilnehmerKursService.EnrollError(SoftDeleted(teilnehmer, id), kurse, rows, id, kursId)
            == TeilnehmerKursService.EnrollError(teilnehmer, kurse, rows, id, kursId)
    ensures AnwesenheitService.UpsertError(SoftDeleted(teilnehmer, id), kurse, rows, dto)
            == AnwesenheitService.UpsertError(teilnehmer, kurse, rows, dto)
  {
  }

  /** deleteTeilnehmer: an unknown id is NotFound; otherwise aktiv becomes false. */
  method DeleteTeilnehmer(db: Database, id: int) returns (r: Result<()>)
    requires db.Valid()
    modifies db
    ensures db.Valid()
    ensures id !in old(db.teilnehmer) <==> r == Err(NotFound)
    ensures r.Err? ==> r.error == NotFound && unchanged(db)
    ensures r.Ok? ==> db.teilnehmer == SoftDeleted(old(db.teilnehmer), id)
    ensures unchanged(db`kurse, db`kurstypen, db`kursraeume, db`trainer, db`enrollments, db`anwesenheiten,
                      db`stundenplaene, db`nextId)
  {
    if id !in db.teilnehmer {
      return Err(NotFound);
    }
    OverwriteKeepsKeys(db.teilnehmer, id, db.teilnehmer[id].(aktiv := false));
    db.teilnehmer := SoftDeleted(db.teilnehmer, id);
    r := Ok(());
  }
}
