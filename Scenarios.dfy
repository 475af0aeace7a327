/** Concrete runs of the service methods on a fresh store, in the spirit of the
    repository's service tests: the outcomes follow from the methods' contracts. */
module Scenarios {
  import opened Common
  import opened Model
  import opened Dto
  import opened Store
  import KursService
  import TeilnehmerKursService
  import AnwesenheitService

  /** A student record; its field values play no part in the checks. */
  function SomeStudent(): Teilnehmer {
    Teilnehmer("Ana", "Berg", "ana@example.org", "", None, Some(W), "", "", None, true)
  }

  /** A trainer record. */
  function SomeTrainer(): Trainer {
    Trainer("Jan", "Roth", "jan@example.org", "", 1, Verfuegbar, "", None, true)
  }

  /** A course of capacity one: the first student enrolls, the second is turned
      away at capacity, and the counter ends at the maximum. */
  method CapacityScenario() returns (first: Result<TeilnehmerKurs>, second: Result<TeilnehmerKurs>, counter: int)
    ensures first == Ok(TeilnehmerKurs(2, 1, 1, 100, None, Angemeldet))
    ensures second == Err(AtCapacity)
    ensures counter == 1
  {
    var s := SomeStudent();
    var db := new Database(map[1 := s, 2 := s], map[5 := SomeTrainer()], {1}, {1});
    var dto := KursDto("A1", Some(1), Some(1), Some(5), Some(10), Some(20), Some(1), Some(0), Geplant, "");
    var created := KursService.CreateKurs(db, dto);
    assert created == Ok(1);
    first := TeilnehmerKursService.EnrollTeilnehmerInKurs(db, 1, 1, 100);
    assert db.kurse[1].aktuelleTeilnehmer == 1;
    second := TeilnehmerKursService.EnrollTeilnehmerInKurs(db, 2, 1, 100);
    counter := db.kurse[1].aktuelleTeilnehmer;
  }

  /** A withdrawn student cannot enroll again: the withdrawal keeps the row. */
  method ReenrollScenario() returns (again: Result<TeilnehmerKurs>)
    ensures again == Err(AlreadyEnrolled)
  {
    var db := new Database(map[1 := SomeStudent()], map[5 := SomeTrainer()], {1}, {1});
    var dto := KursDto("A1", Some(1), Some(1), Some(5), Some(10), Some(20), Some(12), Some(0), Geplant, "");
    var created := KursService.CreateKurs(db, dto);
    assert created == Ok(1);
    var enrolled := TeilnehmerKursService.EnrollTeilnehmerInKurs(db, 1, 1, 100);
    assert db.enrollments == [TeilnehmerKurs(2, 1, 1, 100, None, Angemeldet)];
    var removed := TeilnehmerKursService.RemoveTeilnehmerFromKurs(db, 1, 1, 110);
    assert removed.Ok?;
    again := TeilnehmerKursService.EnrollTeilnehmerInKurs(db, 1, 1, 120);
  }

  /** A bulk request for one date with an enrolled student, an unknown student and
      the enrolled student again: the unknown one is skipped, the repeated entry
      overwrites the first in place, and one record remains. */
  lemma BulkExample()
    ensures var row := TeilnehmerKurs(2, 1, 1, 100, None, Angemeldet);
            var kurs := Kurs("A1", 1, 1, 5, 10, Some(20), 12, 1, Geplant, "");
            var entries := [BulkEntry(1, true, false, ""), BulkEntry(9, true, false, ""), BulkEntry(1, false, true, "krank")];
            var b := AnwesenheitService.BulkApplied(map[1 := SomeStudent()], map[1 := kurs], [row], [], 3, 1, 105, entries);
            && |b.results| == 2
            && b.records == [Anwesenheit(3, 1, 1, 105, false, true, "krank")]
            && b.nextId == 4
  {
    var row := TeilnehmerKurs(2, 1, 1, 100, None, Angemeldet);
    var kurs := Kurs("A1", 1, 1, 5, 10, Some(20), 12, 1, Geplant, "");
    var entries := [BulkEntry(1, true, false, ""), BulkEntry(9, true, false, ""), BulkEntry(1, false, true, "krank")];
    var t, k := map[1 := SomeStudent()], map[1 := kurs];
    var a1 := Anwesenheit(3, 1, 1, 105, true, false, "");
    assert FindEnrollment([row], 1, 1) == Some(0);
    assert entries[..1][..0] == [];
    assert AnwesenheitService.BulkApplied(t, k, [row], [], 3, 1, 105, entries[..1]) == AnwesenheitService.Bulk([a1], 4, [a1]);
    assert entries[..2][..1] == entries[..1];
    assert AnwesenheitService.BulkApplied(t, k, [row], [], 3, 1, 105, entries[..2]) == AnwesenheitService.Bulk([a1], 4, [a1]);
    assert AnwesenheitService.FindRecord([a1], 1, 1, 105) == Some(0);
    assert entries[..3][..2] == entries[..2] && entries[..3] == entries;
  }
}
