/** The entities the services read and write, and the enumerations they use.
    Each JPA entity becomes a record value; its table is a field of the store. */
module Model {
  import opened Common

  /** KursStatusType. Only `geplant` and `laufend` are named by the services; the
      other two are the remaining course states of the design. */
  datatype KursStatus = Geplant | Laufend | Beendet | Abgesagt

  /** TeilnehmerKursStatus: the life cycle of an enrollment row. */
  datatype EnrollmentStatus = Angemeldet | Aktiv | Abgeschlossen | Abgebrochen

  /** TrainerStatus. */
  datatype TrainerStatus = Verfuegbar | ImEinsatz | Abwesend

  /** GenderType. */
  datatype Gender = M | W | D

  /** A row counts towards a course roster while it is angemeldet or aktiv. */
  predicate IsCurrent(st: EnrollmentStatus) {
    st == Angemeldet || st == Aktiv
  }

  /** A course (Kurs). References to course type, room and trainer are ids. */
  datatype Kurs = Kurs(
    kursName: string,
    kurstypId: int,
    kursraumId: int,
    trainerId: int,
    startdatum: Day,
    enddatum: Option<Day>,
    maxTeilnehmer: int,
    aktuelleTeilnehmer: int,
    status: KursStatus,
    beschreibung: string)

  /** The capacity invariant of one course: 0 <= aktuelle <= max. */
  predicate CapacityOk(k: Kurs) {
    0 <= k.aktuelleTeilnehmer <= k.maxTeilnehmer
  }

  /** "Has open seats". */
  predicate HasOpenSeats(k: Kurs) {
    k.aktuelleTeilnehmer < k.maxTeilnehmer
  }

  /** A student (Teilnehmer); the map key is the id. */
  datatype Teilnehmer = Teilnehmer(
    vorname: string,
    nachname: string,
    email: string,
    telefon: string,
    geburtsdatum: Option<Day>,
    geschlecht: Option<Gender>,
    staatsangehoerigkeit: string,
    muttersprache: string,
    anmeldedatum: Option<Day>,
    aktiv: bool)

  /** A trainer; the map key is the id. */
  datatype Trainer = Trainer(
    vorname: string,
    nachname: string,
    email: string,
    telefon: string,
    abteilungId: int,
    status: TrainerStatus,
    qualifikationen: string,
    einstellungsdatum: Option<Day>,
    aktiv: bool)

  /** An enrollment row (TeilnehmerKurs), one per (student, course) pair. */
  datatype TeilnehmerKurs = TeilnehmerKurs(
    id: int,
    teilnehmerId: int,
    kursId: int,
    anmeldedatum: Day,
    abmeldedatum: Option<Day>,
    status: EnrollmentStatus)

  /** An attendance record (Anwesenheit). */
  datatype Anwesenheit = Anwesenheit(
    id: int,
    teilnehmerId: int,
    kursId: int,
    datum: Day,
    anwesend: bool,
    entschuldigt: bool,
    bemerkung: string)

  /** A weekly schedule slot (Stundenplan); `wochentag` is free text. */
  datatype Stundenplan = Stundenplan(
    id: int,
    kursId: int,
    wochentag: string,
    startzeit: Minute,
    endzeit: Minute,
    bemerkungen: string,
    aktiv: bool)
}
