/** StundenplanService: weekly schedule slots of a course, the time-range check,
    the boundary-inclusive overlap test on create, overwrite-style update and
    soft delete. */
module StundenplanService {
  import opened Common
  import opened Model
  import opened Dto
  import opened Store

  // ---------------------------------------------------------------------------
  // The overlap test
  // ---------------------------------------------------------------------------

  /** hasTimeConflict: the new interval neither ends before the existing slot
      starts nor starts after it ends. */
  predicate HasTimeConflict(existing: Stundenplan, startzeit: Minute, endzeit: Minute)
    ensures HasTimeConflict(existing, startzeit, endzeit) <==>
              (startzeit <= existing.endzeit && existing.startzeit <= endzeit)
  {
    !(endzeit < existing.startzeit || startzeit > existing.endzeit)
  }

  /** The overlap test is the closed-interval intersection test, so touching
      boundaries conflict; it is symmetric; and a valid slot conflicts with itself. */
  lemma TimeConflictCases(existing: Stundenplan, startzeit: Minute, endzeit: Minute)
    ensures existing.startzeit <= existing.endzeit && startzeit <= endzeit ==>
              (HasTimeConflict(existing, startzeit, endzeit) <==>
               HasTimeConflict(existing.(startzeit := startzeit, endzeit := endzeit), existing.startzeit, existing.endzeit))
    ensures existing.startzeit <= existing.endzeit && startzeit < endzeit && startzeit == existing.endzeit ==>
              HasTimeConflict(existing, startzeit, endzeit)
    ensures existing.startzeit <= existing.endzeit && startzeit < endzeit && endzeit == existing.startzeit ==>
              HasTimeConflict(existing, startzeit, endzeit)
    ensures existing.startzeit <= existing.endzeit ==>
              HasTimeConflict(existing, existing.startzeit, existing.endzeit)
    ensures endzeit < existing.startzeit || startzeit > existing.endzeit ==>
              !HasTimeConflict(existing, startzeit, endzeit)
  {
  }

  /** Minute `m` lies in the closed interval [lo, hi]. */
  predicate InInterval(m: Minute, lo: Minute, hi: Minute) {
    lo <= m <= hi
  }

  /** For ordered intervals the overlap test holds exactly when the two intervals
      share a minute. */
  lemma ConflictSharesMinute(existing: Stundenplan, startzeit: Minute, endzeit: Minute)
    requires existing.startzeit <= existing.endzeit && startzeit <= endzeit
    ensures HasTimeConflict(existing, startzeit, endzeit) <==>
              exists m :: InInterval(m, startzeit, endzeit) && InInterval(m, existing.startzeit, existing.endzeit)
  {
    if HasTimeConflict(existing, startzeit, endzeit) {
      var m := if startzeit < existing.startzeit then existing.startzeit else startzeit;
      assert InInterval(m, startzeit, endzeit) && InInterval(m, existing.startzeit, existing.endzeit);
    }
  }

  /** The condition the create loop tests for each existing slot of the course. */
  predicate Conflicts(existing: Stundenplan, wochentag: string, startzeit: Minute, endzeit: Minute) {
    existing.wochentag == wochentag && existing.aktiv && HasTimeConflict(existing, startzeit, endzeit)
  }

  /** Some slot of `existing` conflicts. */
  predicate ConflictIn(existing: seq<Stundenplan>, wochentag: string, startzeit: Minute, endzeit: Minute) {
    exists i :: 0 <= i < |existing| && Conflicts(existing[i], wochentag, startzeit, endzeit)
  }

  /** The create loop over the course's slots: stops at the first conflict. */
  method FindConflict(existing: seq<Stundenplan>, wochentag: string, startzeit: Minute, endzeit: Minute)
    returns (found: bool)
    ensures found <==> ConflictIn(existing, wochentag, startzeit, endzeit)
  {
    var i := 0;
    while i < |existing|
      invariant 0 <= i <= |existing|
      invariant forall j :: 0 <= j < i ==> !Conflicts(existing[j], wochentag, startzeit, endzeit)
    {
      var ex := existing[i];
      if ex.wochentag == wochentag && ex.aktiv && HasTimeConflict(ex, startzeit, endzeit) {
        return true;
      }
      i := i + 1;
    }
    return false;
  }

  /** StundenplanRepository.findByKursId. */
  function SlotOfKurs(kursId: int): Stundenplan -> bool {
    (s: Stundenplan) => s.kursId == kursId
  }

  /** A conflict among the course's slots is an active slot of the same course and
      weekday that overlaps the new times; nothing else counts. */
  lemma ConflictIff(slots: seq<Stundenplan>, kursId: int, wochentag: string, startzeit: Minute, endzeit: Minute)
    ensures ConflictIn(Filter(slots, SlotOfKurs(kursId)), wochentag, startzeit, endzeit) <==>
              exists j :: 0 <= j < |slots| && slots[j].kursId == kursId && Conflicts(slots[j], wochentag, startzeit, endzeit)
  {
    var existing := Filter(slots, SlotOfKurs(kursId));
    FilterMembers(slots, SlotOfKurs(kursId));
    if ConflictIn(existing, wochentag, startzeit, endzeit) {
      var i :| 0 <= i < |existing| && Conflicts(existing[i], wochentag, startzeit, endzeit);
      var j :| 0 <= j < |slots| && slots[j] == existing[i];
      assert slots[j].kursId == kursId;
    }
    if exists j :: 0 <= j < |slots| && slots[j].kursId == kursId && Conflicts(slots[j], wochentag, startzeit, endzeit) {
      var j :| 0 <= j < |slots| && slots[j].kursId == kursId && Conflicts(slots[j], wochentag, startzeit, endzeit);
      assert slots[j] in existing;
      var i :| 0 <= i < |existing| && existing[i] == slots[j];
    }
  }

  /** Adding an inactive slot, or one on another weekday, never creates a conflict. */
  lemma OnlyActiveSameDayMatter(slots: seq<Stundenplan>, x: Stundenplan, kursId: int, wochentag: string,
                                startzeit: Minute, endzeit: Minute)
    requires !x.aktiv || x.wochentag != wochentag
    ensures ConflictIn(Filter(slots + [x], SlotOfKurs(kursId)), wochentag, startzeit, endzeit) <==>
            ConflictIn(Filter(slots, SlotOfKurs(kursId)), wochentag, startzeit, endzeit)
  {
    ConflictIff(slots, kursId, wochentag, startzeit, endzeit);
    ConflictIff(slots + [x], kursId, wochentag, startzeit, endzeit);
    var s' := slots + [x];
    if exists j :: 0 <= j < |s'| && s'[j].kursId == kursId && Conflicts(s'[j], wochentag, startzeit, endzeit) {
      var j :| 0 <= j < |s'| && s'[j].kursId == kursId && Conflicts(s'[j], wochentag, startzeit, endzeit);
      assert j < |slots| && s'[j] == slots[j];
    }
    if exists j :: 0 <= j < |slots| && slots[j].kursId == kursId && Conflicts(slots[j], wochentag, startzeit, endzeit) {
      var j :| 0 <= j < |slots| && slots[j].kursId == kursId && Conflicts(slots[j], wochentag, startzeit, endzeit);
      assert s'[j] == slots[j];
    }
  }

  // ---------------------------------------------------------------------------
  // The schedule invariant
  // ---------------------------------------------------------------------------

  /** Two active slots of one course on one weekday whose times overlap. */
  predicate Clash(a: Stundenplan, b: Stundenplan) {
    a.aktiv && b.aktiv && a.kursId == b.kursId && a.wochentag == b.wochentag && HasTimeConflict(a, b.startzeit, b.endzeit)
  }

  /** The active slots of each course and weekday are pairwise free of conflicts. */
  predicate SlotsDisjoint(slots: seq<Stundenplan>) {
    forall i, j :: 0 <= i < j < |slots| ==> !Clash(slots[i], slots[j])
  }

  // ---------------------------------------------------------------------------
  // Create
  // ---------------------------------------------------------------------------

  /** The checks of createStundenplan, in order: the time range before the course
      lookup, then the conflict scan over the course's slots. */
  function CreateSlotError(kurse: map<int, Kurs>, slots: seq<Stundenplan>, dto: StundenplanDto): Option<Error>
    requires dto.startzeit.Some? && dto.endzeit.Some?
  {
    if !dto.IsValidTimeRange() then Some(InvalidRange)
    else if dto.kursId !in kurse then Some(NotFound)
    else if ConflictIn(Filter(slots, SlotOfKurs(dto.kursId)), dto.wochentag, dto.startzeit.value, dto.endzeit.value)
    then Some(TimeConflict)
    else None
  }

  /** The slot a create stores under `id`: every field from the request. */
  function NewSlot(id: int, dto: StundenplanDto): (s: Stundenplan)
    requires dto.startzeit.Some? && dto.endzeit.Some?
    ensures s.id == id && s.kursId == dto.kursId && s.wochentag == dto.wochentag && s.aktiv == dto.aktiv
    ensures s.startzeit < s.endzeit <==> dto.IsValidTimeRange()
  {
    Stundenplan(id, dto.kursId, dto.wochentag, dto.startzeit.value, dto.endzeit.value, dto.bemerkungen, dto.aktiv)
  }

  /** A create passes exactly when the range is valid, the course exists and no
      active slot of the course on that weekday overlaps; an identical active slot
      is always rejected. */
  lemma CreateSlotErrorCases(kurse: map<int, Kurs>, slots: seq<Stundenplan>, dto: StundenplanDto)
    requires dto.startzeit.Some? && dto.endzeit.Some?
    ensures CreateSlotError(kurse, slots, dto).None? <==>
              (&& dto.startzeit.value < dto.endzeit.value
               && dto.kursId in kurse
               && forall j :: 0 <= j < |slots| && slots[j].kursId == dto.kursId ==>
                    !Conflicts(slots[j], dto.wochentag, dto.startzeit.value, dto.endzeit.value))
    ensures !dto.IsValidTimeRange() ==> CreateSlotError(kurse, slots, dto) == Some(InvalidRange)
    ensures (dto.IsValidTimeRange() && dto.kursId in kurse && dto.aktiv &&
             exists j :: 0 <= j < |slots| && slots[j] == NewSlot(slots[j].id, dto))
            ==> CreateSlotError(kurse, slots, dto) == Some(TimeConflict)
  {
    ConflictIff(slots, dto.kursId, dto.wochentag, dto.startzeit.value, dto.endzeit.value);
    if dto.IsValidTimeRange() && dto.kursId in kurse && dto.aktiv &&
       exists j :: 0 <= j < |slots| && slots[j] == NewSlot(slots[j].id, dto) {
      var j :| 0 <= j < |slots| && slots[j] == NewSlot(slots[j].id, dto);
      assert Conflicts(slots[j], dto.wochentag, dto.startzeit.value, dto.endzeit.value);
    }
  }

  /** A passing create keeps the schedule invariant. */
  lemma CreateKeepsDisjoint(kurse: map<int, Kurs>, slots: seq<Stundenplan>, id: int, dto: StundenplanDto)
    requires dto.startzeit.Some? && dto.endzeit.Some?
    requires SlotsDisjoint(slots) && CreateSlotError(kurse, slots, dto).None?
    ensures SlotsDisjoint(slots + [NewSlot(id, dto)])
  {
    CreateSlotErrorCases(kurse, slots, dto);
    var s' := slots + [NewSlot(id, dto)];
    forall i, j | 0 <= i < j < |s'| ensures !Clash(s'[i], s'[j]) {
      assert s'[i] == slots[i];
      if j < |slots| {
        assert s'[j] == slots[j];
      }
    }
  }

  /** createStundenplan. The slot is stored under the id counter. */
  method CreateStundenplan(db: Database, dto: StundenplanDto) returns (r: Result<Stundenplan>)
    requires db.Valid()
    requires dto.startzeit.Some? && dto.endzeit.Some?
    modifies db
    ensures db.Valid()
    ensures var e := CreateSlotError(old(db.kurse), old(db.stundenplaene), dto);
            if e.Some? then r == Err(e.value) && unchanged(db)
            else
              && r == Ok(NewSlot(old(db.nextId), dto))
              && db.stundenplaene == old(db.stundenplaene) + [r.value]
              && db.nextId == old(db.nextId) + 1
    ensures unchanged(db`kurse, db`kurstypen, db`kursraeume, db`trainer, db`teilnehmer, db`enrollments, db`anwesenheiten)
  {
    if !dto.IsValidTimeRange() {
      return Err(InvalidRange);
    }
    if dto.kursId !in db.kurse {
      return Err(NotFound);
    }
    var existing := Filter(db.stundenplaene, SlotOfKurs(dto.kursId));
    var conflict := FindConflict(existing, dto.wochentag, dto.startzeit.value, dto.endzeit.value);
    if conflict {
      return Err(TimeConflict);
    }
    var slot := NewSlot(db.nextId, dto);
    AppendUniqueKeys(db.stundenplaene, slot, StundenplanId);
    NewSlots(db.kurse.Keys, db.teilnehmer.Keys, db.enrollments, db.anwesenheiten, db.stundenplaene,
             db.stundenplaene + [slot], db.nextId, db.nextId + 1);
    db.stundenplaene := db.stundenplaene + [slot];
    db.nextId := db.nextId + 1;
    r := Ok(slot);
  }

  // ---------------------------------------------------------------------------
  // Update
  // ---------------------------------------------------------------------------

  /** The slot with primary key `id`. */
  function HasSlotId(id: int): Stundenplan -> bool {
    (s: Stundenplan) => s.id == id
  }

  /** StundenplanRepository.findById: the position of the slot, or None. */
  function FindSlot(slots: seq<Stundenplan>, id: int): (r: Option<nat>)
    ensures r.Some? ==> r.value < |slots| && slots[r.value].id == id
    ensures r.None? <==> forall i :: 0 <= i < |slots| ==> slots[i].id != id
  {
    FirstIndex(slots, HasSlotId(id))
  }

  /** The checks of updateStundenplan, in order: the slot must exist, the range
      must be valid, and a changed course must exist. */
  function UpdateSlotError(kurse: map<int, Kurs>, slots: seq<Stundenplan>, id: int, dto: StundenplanDto): Option<Error> {
    match FindSlot(slots, id)
    case None => Some(NotFound)
    case Some(i) =>
      if !dto.IsValidTimeRange() then Some(InvalidRange)
      else if slots[i].kursId != dto.kursId && dto.kursId !in kurse then Some(NotFound)
      else None
  }

  /** The slot after the update: weekday, times, remarks, flag and course from the
      request; the id kept. */
  function UpdatedSlot(s: Stundenplan, dto: StundenplanDto): (u: Stundenplan)
    requires dto.startzeit.Some? && dto.endzeit.Some?
    ensures u == NewSlot(s.id, dto)
  {
    s.(kursId := dto.kursId, wochentag := dto.wochentag, startzeit := dto.startzeit.value,
       endzeit := dto.endzeit.value, bemerkungen := dto.bemerkungen, aktiv := dto.aktiv)
  }

  /** The update's course lookup happens only for a changed course: keeping the
      course never fails for a missing course, and a range error comes after the
      missing-slot error. */
  lemma UpdateSlotErrorCases(kurse: map<int, Kurs>, slots: seq<Stundenplan>, id: int, dto: StundenplanDto)
    ensures (forall i :: 0 <= i < |slots| ==> slots[i].id != id) ==> UpdateSlotError(kurse, slots, id, dto) == Some(NotFound)
    ensures FindSlot(slots, id).Some? && !dto.IsValidTimeRange() ==> UpdateSlotError(kurse, slots, id, dto) == Some(InvalidRange)
    ensures (FindSlot(slots, id).Some? && dto.IsValidTimeRange() &&
             slots[FindSlot(slots, id).value].kursId == dto.kursId)
            ==> UpdateSlotError(kurse, slots, id, dto).None?
  {
  }

  /** Update runs no conflict check: two disjoint active slots of one course on
      Monday, and an update of the second that moves it onto the first. */
  lemma UpdateCanBreakDisjoint()
    ensures var k := Kurs("A1", 1, 1, 1, 10, None, 12, 0, Geplant, "");
            var slots := [Stundenplan(1, 7, "Montag", 540, 600, "", true), Stundenplan(2, 7, "Montag", 660, 720, "", true)];
            var dto := StundenplanDto(7, "Montag", Some(570), Some(630), "", true);
            && SlotsDisjoint(slots)
            && UpdateSlotError(map[7 := k], slots, 2, dto).None?
            && !SlotsDisjoint(slots[1 := UpdatedSlot(slots[1], dto)])
  {
    var slots := [Stundenplan(1, 7, "Montag", 540, 600, "", true), Stundenplan(2, 7, "Montag", 660, 720, "", true)];
    var dto := StundenplanDto(7, "Montag", Some(570), Some(630), "", true);
    assert FindSlot(slots, 2) == Some(1);
    var s' := slots[1 := UpdatedSlot(slots[1], dto)];
    assert Clash(s'[0], s'[1]);
  }

  /** updateStundenplan. */
  method UpdateStundenplan(db: Database, id: int, dto: StundenplanDto) returns (r: Result<Stundenplan>)
    requires db.Valid()
    requires dto.startzeit.Some? && dto.endzeit.Some?
    modifies db
    ensures db.Valid()
    ensures var e := UpdateSlotError(old(db.kurse), old(db.stundenplaene), id, dto);
            if e.Some? then r == Err(e.value) && unchanged(db)
            else
              var i := FindSlot(old(db.stundenplaene), id).value;
              && r == Ok(UpdatedSlot(old(db.stundenplaene)[i], dto))
              && db.stundenplaene == old(db.stundenplaene)[i := r.value]
    ensures unchanged(db`kurse, db`kurstypen, db`kursraeume, db`trainer, db`teilnehmer, db`enrollments,
                      db`anwesenheiten, db`nextId)
  {
    var found := FindSlot(db.stundenplaene, id);
    if found.None? {
      return Err(NotFound);
    }
    var i := found.value;
    if !dto.IsValidTimeRange() {
      return Err(InvalidRange);
    }
    var slot := UpdatedSlot(db.stundenplaene[i], dto);
    if db.stundenplaene[i].kursId != dto.kursId {
      if dto.kursId !in db.kurse {
        return Err(NotFound);
      }
    }
    UpdateUniqueKeys(db.stundenplaene, i, slot, StundenplanId);
    NewSlots(db.kurse.Keys, db.teilnehmer.Keys, db.enrollments, db.anwesenheiten, db.stundenplaene,
             db.stundenplaene[i := slot], db.nextId, db.nextId);
    db.stundenplaene := db.stundenplaene[i := slot];
    r := Ok(slot);
  }

  // ---------------------------------------------------------------------------
  // Delete and list
  // ---------------------------------------------------------------------------

  /** The table after soft-deleting the slot at position `i`. */
  function Deactivated(slots: seq<Stundenplan>, i: nat): (s': seq<Stundenplan>)
    requires i < |slots|
    ensures |s'| == |slots| && s'[i].id == slots[i].id && !s'[i].aktiv
  {
    slots[i := slots[i].(aktiv := false)]
  }

  /** Soft delete keeps the schedule invariant, only changes the flag, and is
      idempotent. */
  lemma DeactivateKeepsDisjoint(slots: seq<Stundenplan>, i: nat)
    requires i < |slots|
    ensures SlotsDisjoint(slots) ==> SlotsDisjoint(Deactivated(slots, i))
    ensures Deactivated(slots, i)[i] == slots[i].(aktiv := false)
    ensures forall j :: 0 <= j < |slots| && j != i ==> Deactivated(slots, i)[j] == slots[j]
    ensures Deactivated(Deactivated(slots, i), i) == Deactivated(slots, i)
  {
    if SlotsDisjoint(slots) {
      var s' := Deactivated(slots, i);
      forall a, b | 0 <= a < b < |s'| ensures !Clash(s'[a], s'[b]) {
        assert !Clash(slots[a], slots[b]);
      }
    }
  }

  /** deleteStundenplan: an unknown id is NotFound; otherwise the slot stays in the
      table with aktiv = false. */
  method DeleteStundenplan(db: Database, id: int) returns (r: Result<()>)
    requires db.Valid()
    modifies db
    ensures db.Valid()
    ensures FindSlot(old(db.stundenplaene), id).None? <==> r == Err(NotFound)
    ensures r.Err? ==> r.error == NotFound && unchanged(db)
    ensures r.Ok? ==> db.stundenplaene == Deactivated(old(db.stundenplaene), FindSlot(old(db.stundenplaene), id).value)
    ensures unchanged(db`kurse, db`kurstypen, db`kursraeume, db`trainer, db`teilnehmer, db`enrollments,
                      db`anwesenheiten, db`nextId)
  {
    var found := FindSlot(db.stundenplaene, id);
    if found.None? {
      return Err(NotFound);
    }
    var i := found.value;
    var slots' := Deactivated(db.stundenplaene, i);
    UpdateUniqueKeys(db.stundenplaene, i, slots'[i], StundenplanId);
    NewSlots(db.kurse.Keys, db.teilnehmer.Keys, db.enrollments, db.anwesenheiten, db.stundenplaene,
             slots', db.nextId, db.nextId);
    db.stundenplaene := slots';
    r := Ok(());
  }

  /** An active slot. */
  predicate IsActiveSlot(s: Stundenplan) {
    s.aktiv
  }

  /** getAllStundenplaene (StundenplanRepository.findByAktivTrue), in stored order. */
  function GetAllStundenplaene(slots: seq<Stundenplan>): (r: seq<Stundenplan>)
    ensures |r| <= |slots|
  {
    Filter(slots, IsActiveSlot)
  }

  /** The list holds exactly the active slots. */
  lemma ActiveListExact(slots: seq<Stundenplan>)
    ensures forall i :: 0 <= i < |GetAllStundenplaene(slots)| ==>
              GetAllStundenplaene(slots)[i] in slots && GetAllStundenplaene(slots)[i].aktiv
    ensures forall i :: 0 <= i < |slots| && slots[i].aktiv ==> slots[i] in GetAllStundenplaene(slots)
  {
    FilterMembers(slots, IsActiveSlot);
  }

  /** Under unique ids, a soft-deleted slot no longer appears in the list. */
  lemma DeletedSlotHidden(slots: seq<Stundenplan>, i: nat)
    requires i < |slots| && UniqueKeys(slots, StundenplanId)
    ensures forall j :: 0 <= j < |GetAllStundenplaene(Deactivated(slots, i))| ==>
              GetAllStundenplaene(Deactivated(slots, i))[j].id != slots[i].id
  {
    var s' := Deactivated(slots, i);
    ActiveListExact(s');
    forall j | 0 <= j < |GetAllStundenplaene(s')| ensures GetAllStundenplaene(s')[j].id != slots[i].id {
      var x := GetAllStundenplaene(s')[j];
      var k :| 0 <= k < |s'| && s'[k] == x;
      if k != i {
        assert s'[k] == slots[k];
      }
    }
  }
}
