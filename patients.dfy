/** The patient register (src/pages/Patients.tsx): the list of patients kept in page
    state, the "Register Patient" dialog's submit button, the active/inactive toggle
    of each row's menu, the search box and the stat cards. */
module PatientsPage {
  import opened Text
  import opened Decimal
  import opened Seqs

  datatype PatientStatus = Active | Inactive

  /** A registered patient. `registrationDate` is the date the record was created,
      carried as an opaque string. */
  datatype Patient = Patient(
    id: string,
    name: string,
    phone: string,
    email: string,
    lastVisit: string,
    totalVisits: int,
    status: PatientStatus,
    registrationDate: string)

  function IdOf(p: Patient): string { p.id }

  function StatusOf(p: Patient): PatientStatus { p.status }

  /** The page's initial state. */
  const SamplePatients: seq<Patient> := [
    Patient("1", "John Smith", "(555) 123-4567", "john.smith@email.com", "2024-01-10", 12, Active, "2023-06-15"),
    Patient("2", "Sarah Johnson", "(555) 234-5678", "sarah.johnson@email.com", "2024-01-08", 8, Active, "2023-08-22"),
    Patient("3", "Mike Davis", "(555) 345-6789", "mike.davis@email.com", "2023-12-20", 5, Inactive, "2023-05-10"),
    Patient("4", "Emily Wilson", "(555) 456-7890", "emily.wilson@email.com", "2024-01-12", 15, Active, "2022-11-08"),
    Patient("5", "Robert Brown", "(555) 567-8901", "robert.brown@email.com", "2024-01-05", 22, Active, "2022-03-15"),
    Patient("6", "Amanda Taylor", "(555) 678-9012", "amanda.taylor@email.com", "2023-11-18", 3, Inactive, "2023-09-28")
  ]

  /** Ids are "1", "2", ... in list order: so the sample data is written, and
      registering appends `String(length + 1)`. */
  ghost predicate PatientsInvariant(s: seq<Patient>)
  {
    SequentialIds(MapSeq(s, IdOf))
  }

  lemma IdAt(s: seq<Patient>, i: nat)
    requires PatientsInvariant(s) && i < |s|
    ensures s[i].id == NatToString(i + 1)
  {
    assert MapSeq(s, IdOf)[i] == s[i].id;
  }

  // ---------------------------------------------------------------------------
  // addNewPatient

  /** The record `addNewPatient` builds; the dialog's inputs are not read. */
  function NewPatient(s: seq<Patient>, registrationDate: string): (r: Patient)
    ensures ParseNat(r.id) == |s| + 1
    ensures r.status == Active && r.totalVisits == 0 && r.lastVisit == "Never"
    ensures r.registrationDate == registrationDate
  {
    ParseNatToString(|s| + 1);
    Patient(NatToString(|s| + 1), "New Patient", "(555) 000-0000", "new.patient@email.com",
            "Never", 0, Active, registrationDate)
  }

  /** Registering keeps the numbering, and the new id is one no patient has yet. */
  lemma AddPreservesInvariant(s: seq<Patient>, registrationDate: string)
    requires PatientsInvariant(s)
    ensures PatientsInvariant(s + [NewPatient(s, registrationDate)])
    ensures NewPatient(s, registrationDate).id !in MapSeq(s, IdOf)
  {
    NextIdIsFresh(MapSeq(s, IdOf));
    MapSeqAppend(s, NewPatient(s, registrationDate), IdOf);
  }

  // ---------------------------------------------------------------------------
  // updatePatientStatus and the row menu's toggle

  /** The state updater of `updatePatientStatus`: every entry whose id is
      `patientId` gets `newStatus`; everything else is kept. */
  function StatusUpdated(s: seq<Patient>, patientId: string, newStatus: PatientStatus): (r: seq<Patient>)
    ensures |r| == |s|
    ensures forall i :: 0 <= i < |s| ==>
              r[i] == if s[i].id == patientId then s[i].(status := newStatus) else s[i]
  {
    if s == [] then []
    else [if s[0].id == patientId then s[0].(status := newStatus) else s[0]]
         + StatusUpdated(s[1..], patientId, newStatus)
  }

  lemma StatusUpdateUnknownId(s: seq<Patient>, patientId: string, newStatus: PatientStatus)
    requires forall i :: 0 <= i < |s| ==> s[i].id != patientId
    ensures StatusUpdated(s, patientId, newStatus) == s
  {
  }

  lemma StatusUpdateIdempotent(s: seq<Patient>, patientId: string, newStatus: PatientStatus)
    ensures StatusUpdated(StatusUpdated(s, patientId, newStatus), patientId, newStatus)
         == StatusUpdated(s, patientId, newStatus)
  {
  }

  /** With ids "1", "2", ..., the update touches the status of the one entry at k. */
  lemma StatusUpdateSingleEntry(s: seq<Patient>, k: nat, newStatus: PatientStatus)
    requires PatientsInvariant(s) && k < |s|
    ensures StatusUpdated(s, NatToString(k + 1), newStatus) == s[k := s[k].(status := newStatus)]
  {
    var r := StatusUpdated(s, NatToString(k + 1), newStatus);
    var t := s[k := s[k].(status := newStatus)];
    forall i | 0 <= i < |s|
      ensures r[i] == t[i]
    {
      IdAt(s, i);
      NatToStringInjective(i + 1, k + 1);
    }
  }

  lemma StatusUpdatePreservesInvariant(s: seq<Patient>, patientId: string, newStatus: PatientStatus)
    requires PatientsInvariant(s)
    ensures PatientsInvariant(StatusUpdated(s, patientId, newStatus))
  {
    var r := StatusUpdated(s, patientId, newStatus);
    forall i | 0 <= i < |s|
      ensures MapSeq(r, IdOf)[i] == MapSeq(s, IdOf)[i]
    {
      assert MapSeq(r, IdOf)[i] == IdOf(r[i]);
      assert MapSeq(s, IdOf)[i] == IdOf(s[i]);
    }
    assert MapSeq(r, IdOf) == MapSeq(s, IdOf);
  }

  /** The status the row menu offers: the other of the two. */
  function Toggled(st: PatientStatus): (r: PatientStatus)
    ensures r != st
  {
    if st == Active then Inactive else Active
  }

  /** The row menu applied to the patient shown at position k. */
  function ToggledAt(s: seq<Patient>, k: nat): (r: seq<Patient>)
    requires k < |s|
    ensures |r| == |s|
    ensures r[k].status != s[k].status && r[k].(status := s[k].status) == s[k]
  {
    StatusUpdated(s, s[k].id, Toggled(s[k].status))
  }

  /** The toggle flips the status of the one patient at k, and using it twice on that
      patient restores the list. */
  lemma {:induction false} ToggleTwiceRestores(s: seq<Patient>, k: nat)
    requires PatientsInvariant(s) && k < |s|
    ensures ToggledAt(s, k) == s[k := s[k].(status := Toggled(s[k].status))]
    ensures ToggledAt(ToggledAt(s, k), k) == s
  {
    IdAt(s, k);
    StatusUpdateSingleEntry(s, k, Toggled(s[k].status));
    var s1 := ToggledAt(s, k);
    StatusUpdatePreservesInvariant(s, s[k].id, Toggled(s[k].status));
    IdAt(s1, k);
    StatusUpdateSingleEntry(s1, k, Toggled(s1[k].status));
  }

  // ---------------------------------------------------------------------------
  // filteredPatients

  /** The search box: the lower-cased term in the lower-cased name, the term as typed
      in the phone number, or the lower-cased term in the lower-cased email. */
  predicate Matches(p: Patient, term: string): (b: bool)
    ensures b <==> Occurs(Lower(p.name), Lower(term))
                   || Occurs(p.phone, term)
                   || Occurs(Lower(p.email), Lower(term))
    ensures term == "" ==> b
  {
    IncludesEmpty(Lower(p.name));
    Includes(Lower(p.name), Lower(term))
    || Includes(p.phone, term)
    || Includes(Lower(p.email), Lower(term))
  }

  function Filtered(s: seq<Patient>, term: string): (r: seq<Patient>)
    ensures IsSubsequence(r, s)
    ensures forall p :: p in r ==> p in s && Matches(p, term)
    ensures forall p :: p in s && Matches(p, term) ==> p in r
    ensures forall p :: p in s ==> multiset(r)[p] == if Matches(p, term) then multiset(s)[p] else 0
  {
    var keep := (p: Patient) => Matches(p, term);
    FilterIsSubsequence(s, keep);
    Filter(s, keep)
  }

  lemma EmptyTermKeepsAll(s: seq<Patient>)
    ensures Filtered(s, "") == s
  {
    forall p | p in s
      ensures Matches(p, "")
    {
      IncludesEmpty(Lower(p.name));
    }
    FilterKeepsAll(s, (p: Patient) => Matches(p, ""));
  }

  // ---------------------------------------------------------------------------
  // patientStats (total, active, inactive)

  datatype PatientStats = PatientStats(total: nat, active: nat, inactive: nat)

  lemma {:induction false} StatusCountsPartition(s: seq<Patient>)
    ensures CountKey(s, StatusOf, Active) + CountKey(s, StatusOf, Inactive) == |s|
  {
    if s != [] {
      match StatusOf(s[0]) {
        case Active =>
        case Inactive =>
      }
      CountKeyUnfold(s, StatusOf, Active);
      CountKeyUnfold(s, StatusOf, Inactive);
      StatusCountsPartition(s[1..]);
    }
  }

  /** The stat cards: with two statuses, active and inactive add up to the total. */
  function Stats(s: seq<Patient>): (r: PatientStats)
    ensures r.total == |s|
    ensures r.active == multiset(MapSeq(s, StatusOf))[Active]
    ensures r.inactive == multiset(MapSeq(s, StatusOf))[Inactive]
    ensures r.active + r.inactive == r.total
  {
    CountKeyIsMultiplicity(s, StatusOf, Active);
    CountKeyIsMultiplicity(s, StatusOf, Inactive);
    StatusCountsPartition(s);
    PatientStats(|s|, CountKey(s, StatusOf, Active), CountKey(s, StatusOf, Inactive))
  }

  /** Registering adds one to the total and one to the active count. */
  lemma StatsAfterAdd(s: seq<Patient>, registrationDate: string)
    ensures Stats(s + [NewPatient(s, registrationDate)])
         == PatientStats(|s| + 1, Stats(s).active + 1, Stats(s).inactive)
  {
    CountKeyAppend(s, NewPatient(s, registrationDate), StatusOf, Active);
    CountKeyAppend(s, NewPatient(s, registrationDate), StatusOf, Inactive);
  }

  /** Toggling the patient at k moves one unit between the two counts and keeps the total. */
  lemma StatsAfterToggle(s: seq<Patient>, k: nat)
    requires PatientsInvariant(s) && k < |s|
    ensures Stats(ToggledAt(s, k)).total == Stats(s).total
    ensures s[k].status == Active ==>
              Stats(ToggledAt(s, k)).active + 1 == Stats(s).active
              && Stats(ToggledAt(s, k)).inactive == Stats(s).inactive + 1
    ensures s[k].status == Inactive ==>
              Stats(ToggledAt(s, k)).active == Stats(s).active + 1
              && Stats(ToggledAt(s, k)).inactive + 1 == Stats(s).inactive
  {
    ToggleTwiceRestores(s, k);
    var x := s[k].(status := Toggled(s[k].status));
    CountKeyReplace(s, k, x, StatusOf, Active);
    CountKeyReplace(s, k, x, StatusOf, Inactive);
  }

  // ---------------------------------------------------------------------------
  // The page's state

  class Patients {
    var patients: seq<Patient>

    ghost predicate Valid()
      reads this
    {
      PatientsInvariant(patients)
    }

    constructor ()
      ensures Valid() && patients == SamplePatients
    {
      patients := SamplePatients;
      var ids := MapSeq(SamplePatients, IdOf);
      assert NatToString(1) == "1" && NatToString(2) == "2" && NatToString(3) == "3";
      assert NatToString(4) == "4" && NatToString(5) == "5" && NatToString(6) == "6";
      forall i | 0 <= i < |ids|
        ensures ids[i] == NatToString(i + 1)
      {
        assert ids[i] == IdOf(SamplePatients[i]);
        assert i == 0 || i == 1 || i == 2 || i == 3 || i == 4 || i == 5;
      }
    }

    /** The dialog's "Register Patient" button; `registrationDate` is today's date. */
    method AddNewPatient(registrationDate: string)
      requires Valid()
      modifies this
      ensures Valid()
      ensures patients == old(patients) + [NewPatient(old(patients), registrationDate)]
    {
      var newPatient := NewPatient(patients, registrationDate);
      AddPreservesInvariant(patients, registrationDate);
      patients := patients + [newPatient];
    }

    method UpdatePatientStatus(patientId: string, newStatus: PatientStatus)
      requires Valid()
      modifies this
      ensures Valid()
      ensures patients == StatusUpdated(old(patients), patientId, newStatus)
    {
      StatusUpdatePreservesInvariant(patients, patientId, newStatus);
      patients := StatusUpdated(patients, patientId, newStatus);
    }

    /** "Mark as Inactive" / "Mark as Active" on the row showing `patient`. */
    method ToggleStatus(patient: Patient)
      requires Valid()
      modifies this
      ensures Valid()
      ensures patients == StatusUpdated(old(patients), patient.id, Toggled(patient.status))
    {
      UpdatePatientStatus(patient.id, Toggled(patient.status));
    }
  }
}
