/** The request objects the services receive, with the validation predicates
    KursDto and StundenplanDto define and their declared field constraints. */
module Dto {
  import opened Common
  import opened Model

  /** Declared default of KursDto.maxTeilnehmer. */
  const DefaultMaxTeilnehmer: int := 12
  /** Declared default of KursDto.aktuelleTeilnehmer. */
  const DefaultAktuelleTeilnehmer: int := 0
  /** Declared upper bound of KursDto.maxTeilnehmer (@Max). */
  const MaxTeilnehmerLimit: int := 50

  /** KursDto. Reference ids, dates and counts are nullable Integers/LocalDates. */
  datatype KursDto = KursDto(
    kursName: string,
    kurstypId: Option<int>,
    kursraumId: Option<int>,
    trainerId: Option<int>,
    startdatum: Option<Day>,
    enddatum: Option<Day>,
    maxTeilnehmer: Option<int>,
    aktuelleTeilnehmer: Option<int>,
    status: KursStatus,
    beschreibung: string)
  {
    /** isValidDateRange: with both dates present the end must be strictly after the start;
        a missing date passes, and equal dates fail. */
    predicate IsValidDateRange()
      ensures startdatum.None? || enddatum.None? ==> IsValidDateRange()
      ensures startdatum.Some? && enddatum.Some? ==>
                (IsValidDateRange() <==> enddatum.value > startdatum.value)
      ensures startdatum.Some? && enddatum == startdatum ==> !IsValidDateRange()
    {
      if startdatum.Some? && enddatum.Some? then startdatum.value < enddatum.value
      else true
    }

    /** isParticipantCountValid: with both counts present, current <= maximum; a
        missing count passes. */
    predicate IsParticipantCountValid()
      ensures aktuelleTeilnehmer.None? || maxTeilnehmer.None? ==> IsParticipantCountValid()
      ensures aktuelleTeilnehmer.Some? && maxTeilnehmer.Some? ==>
                (IsParticipantCountValid() <==> aktuelleTeilnehmer.value <= maxTeilnehmer.value)
    {
      if aktuelleTeilnehmer.Some? && maxTeilnehmer.Some? then aktuelleTeilnehmer.value <= maxTeilnehmer.value
      else true
    }

    /** The declared bean-validation bounds: @Positive @Max(50) on the maximum and
        @Min(0) on the current count; a null value passes both. */
    predicate SatisfiesBounds() {
      && (maxTeilnehmer.Some? ==> 0 < maxTeilnehmer.value <= MaxTeilnehmerLimit)
      && (aktuelleTeilnehmer.Some? ==> 0 <= aktuelleTeilnehmer.value)
    }
  }

  /** A KursDto as `new KursDto()` leaves it: every field null except the defaults. */
  function NewKursDto(): (d: KursDto)
    ensures d.maxTeilnehmer == Some(DefaultMaxTeilnehmer)
    ensures d.aktuelleTeilnehmer == Some(DefaultAktuelleTeilnehmer)
    ensures d.status == Geplant
    ensures d.IsValidDateRange() && d.IsParticipantCountValid() && d.SatisfiesBounds()
  {
    KursDto("", None, None, None, None, None,
            Some(DefaultMaxTeilnehmer), Some(DefaultAktuelleTeilnehmer), Geplant, "")
  }

  /** A DTO within the declared bounds whose counts are both present and pass the
      count check describes a course that meets the capacity invariant. */
  lemma BoundsGiveCapacity(d: KursDto)
    requires d.SatisfiesBounds() && d.IsParticipantCountValid()
    requires d.maxTeilnehmer.Some? && d.aktuelleTeilnehmer.Some?
    ensures 0 <= d.aktuelleTeilnehmer.value <= d.maxTeilnehmer.value <= MaxTeilnehmerLimit
  {
  }

  /** StundenplanDto. `aktiv` defaults to true. */
  datatype StundenplanDto = StundenplanDto(
    kursId: int,
    wochentag: string,
    startzeit: Option<Minute>,
    endzeit: Option<Minute>,
    bemerkungen: string,
    aktiv: bool)
  {
    /** isValidTimeRange: with both times present the end must be strictly after the start;
        a missing time passes, and equal times fail. */
    predicate IsValidTimeRange()
      ensures startzeit.None? || endzeit.None? ==> IsValidTimeRange()
      ensures startzeit.Some? && endzeit.Some? ==>
                (IsValidTimeRange() <==> endzeit.value > startzeit.value)
      ensures startzeit.Some? && endzeit == startzeit ==> !IsValidTimeRange()
    {
      if startzeit.Some? && endzeit.Some? then startzeit.value < endzeit.value
      else true
    }
  }

  /** A StundenplanDto as built with its declared default for `aktiv`. */
  function NewStundenplanDto(kursId: int, wochentag: string, startzeit: Minute, endzeit: Minute): (d: StundenplanDto)
    ensures d.aktiv
    ensures d.kursId == kursId && d.wochentag == wochentag
    ensures d.startzeit == Some(startzeit) && d.endzeit == Some(endzeit)
    ensures d.IsValidTimeRange() <==> startzeit < endzeit
  {
    StundenplanDto(kursId, wochentag, Some(startzeit), Some(endzeit), "", true)
  }

  /** AnwesenheitDto: one attendance entry for a (student, course, date). */
  datatype AnwesenheitDto = AnwesenheitDto(
    teilnehmerId: int,
    kursId: int,
    datum: Day,
    anwesend: bool,
    entschuldigt: bool,
    bemerkung: string)

  /** BulkAnwesenheitDto.AttendanceRecord: one line of a bulk request. */
  datatype BulkEntry = BulkEntry(
    teilnehmerId: int,
    anwesend: bool,
    entschuldigt: bool,
    bemerkung: string)

  /** TeilnehmerDto (its id is not read by the update). */
  datatype TeilnehmerDto = TeilnehmerDto(
    vorname: string,
    nachname: string,
    email: string,
    telefon: string,
    geburtsdatum: Option<Day>,
    geschlecht: Option<Gender>,
    staatsangehoerigkeit: string,
    muttersprache: string,
    anmeldedatum: Option<Day>,
    aktiv: bool)

  /** TrainerDto (its id is not read by the update). */
  datatype TrainerDto = TrainerDto(
    vorname: string,
    nachname: string,
    email: string,
    telefon: string,
    abteilungId: int,
    status: TrainerStatus,
    qualifikationen: string,
    einstellungsdatum: Option<Day>,
    aktiv: bool)
}
