/** The appointment book (src/pages/Appointments.tsx): the list of appointments kept
    in page state, the per-row status menu, the search box and the stat cards. */
module AppointmentsPage {
  import opened Text
  import opened Decimal
  import opened Seqs

  datatype AppointmentStatus = Scheduled | Completed | Cancelled | InProgress

  datatype AppointmentType = Consultation | FollowUp | Urgent

  /** An appointment. The source's field `type` is called `kind` here, since `type`
      is a keyword of Dafny. */
  datatype Appointment = Appointment(
    id: string,
    patientName: string,
    patientPhone: string,
    doctorName: string,
    doctorSpecialization: string,
    date: string,
    time: string,
    status: AppointmentStatus,
    kind: AppointmentType)

  function IdOf(a: Appointment): string { a.id }

  function StatusOf(a: Appointment): AppointmentStatus { a.status }

  /** The page's initial state. */
  const SampleAppointments: seq<Appointment> := [
    Appointment("1", "John Smith", "(555) 123-4567", "Dr. Sarah Wilson", "Cardiology",
                "2024-01-15", "09:00 AM", Scheduled, Consultation),
    Appointment("2", "Emily Davis", "(555) 234-5678", "Dr. Michael Johnson", "Pediatrics",
                "2024-01-15", "10:30 AM", InProgress, FollowUp),
    Appointment("3", "Robert Brown", "(555) 345-6789", "Dr. Lisa Chen", "Dermatology",
                "2024-01-15", "02:00 PM", Completed, Consultation),
    Appointment("4", "Amanda Taylor", "(555) 456-7890", "Dr. James Miller", "Orthopedics",
                "2024-01-16", "11:00 AM", Scheduled, Urgent)
  ]

  /** The page never adds or removes appointments, so the ids stay "1", "2", ... */
  ghost predicate AppointmentsInvariant(s: seq<Appointment>)
  {
    SequentialIds(MapSeq(s, IdOf))
  }

  lemma IdAt(s: seq<Appointment>, i: nat)
    requires AppointmentsInvariant(s) && i < |s|
    ensures s[i].id == NatToString(i + 1)
  {
    assert MapSeq(s, IdOf)[i] == s[i].id;
  }

  // ---------------------------------------------------------------------------
  // updateAppointmentStatus

  /** The state updater of `updateAppointmentStatus`: every entry whose id is
      `appointmentId` gets `newStatus`; everything else is kept. */
  function StatusUpdated(s: seq<Appointment>, appointmentId: string, newStatus: AppointmentStatus): (r: seq<Appointment>)
    ensures |r| == |s|
    ensures forall i :: 0 <= i < |s| ==>
              r[i] == if s[i].id == appointmentId then s[i].(status := newStatus) else s[i]
  {
    if s == [] then []
    else [if s[0].id == appointmentId then s[0].(status := newStatus) else s[0]]
         + StatusUpdated(s[1..], appointmentId, newStatus)
  }

  lemma StatusUpdateUnknownId(s: seq<Appointment>, appointmentId: string, newStatus: AppointmentStatus)
    requires forall i :: 0 <= i < |s| ==> s[i].id != appointmentId
    ensures StatusUpdated(s, appointmentId, newStatus) == s
  {
  }

  lemma StatusUpdateIdempotent(s: seq<Appointment>, appointmentId: string, newStatus: AppointmentStatus)
    ensures StatusUpdated(StatusUpdated(s, appointmentId, newStatus), appointmentId, newStatus)
         == StatusUpdated(s, appointmentId, newStatus)
  {
  }

  /** With ids "1", "2", ..., the update touches the status of the one entry at k. */
  lemma StatusUpdateSingleEntry(s: seq<Appointment>, k: nat, newStatus: AppointmentStatus)
    requires AppointmentsInvariant(s) && k < |s|
    ensures StatusUpdated(s, NatToString(k + 1), newStatus) == s[k := s[k].(status := newStatus)]
  {
    var r := StatusUpdated(s, NatToString(k + 1), newStatus);
    var t := s[k := s[k].(status := newStatus)];
    forall i | 0 <= i < |s|
      ensures r[i] == t[i]
    {
      IdAt(s, i);
      NatToStringInjective(i + 1, k + 1);
    }
  }

  /** Status changes are unconstrained: from whatever status the entry at k has,
      the menu leads to any of the four (a completed appointment may go back to
      scheduled). */
  lemma AnyStatusMayFollowAny(s: seq<Appointment>, k: nat, newStatus: AppointmentStatus)
    requires k < |s|
    ensures StatusUpdated(s, s[k].id, newStatus)[k].status == newStatus
    ensures StatusUpdated(s, s[k].id, newStatus)[k].(status := s[k].status) == s[k]
  {
  }

  lemma StatusUpdatePreservesInvariant(s: seq<Appointment>, appointmentId: string, newStatus: AppointmentStatus)
    requires AppointmentsInvariant(s)
    ensures AppointmentsInvariant(StatusUpdated(s, appointmentId, newStatus))
  {
    var r := StatusUpdated(s, appointmentId, newStatus);
    forall i | 0 <= i < |s|
      ensures MapSeq(r, IdOf)[i] == MapSeq(s, IdOf)[i]
    {
      assert MapSeq(r, IdOf)[i] == IdOf(r[i]);
      assert MapSeq(s, IdOf)[i] == IdOf(s[i]);
    }
    assert MapSeq(r, IdOf) == MapSeq(s, IdOf);
  }

  // ---------------------------------------------------------------------------
  // filteredAppointments

  /** The search box: the lower-cased term in the lower-cased patient name, doctor
      name or specialization. */
  predicate Matches(a: Appointment, term: string): (b: bool)
    ensures b <==> Occurs(Lower(a.patientName), Lower(term))
                   || Occurs(Lower(a.doctorName), Lower(term))
                   || Occurs(Lower(a.doctorSpecialization), Lower(term))
    ensures term == "" ==> b
  {
    IncludesEmpty(Lower(a.patientName));
    Includes(Lower(a.patientName), Lower(term))
    || Includes(Lower(a.doctorName), Lower(term))
    || Includes(Lower(a.doctorSpecialization), Lower(term))
  }

  function Filtered(s: seq<Appointment>, term: string): (r: seq<Appointment>)
    ensures IsSubsequence(r, s)
    ensures forall a :: a in r ==> a in s && Matches(a, term)
    ensures forall a :: a in s && Matches(a, term) ==> a in r
    ensures forall a :: a in s ==> multiset(r)[a] == if Matches(a, term) then multiset(s)[a] else 0
  {
    var keep := (a: Appointment) => Matches(a, term);
    FilterIsSubsequence(s, keep);
    Filter(s, keep)
  }

  lemma EmptyTermKeepsAll(s: seq<Appointment>)
    ensures Filtered(s, "") == s
  {
    forall a | a in s
      ensures Matches(a, "")
    {
      IncludesEmpty(Lower(a.patientName));
    }
    FilterKeepsAll(s, (a: Appointment) => Matches(a, ""));
  }

  /** Every searched field is lower-cased, so the case of the term does not matter. */
  lemma SearchIgnoresCase(s: seq<Appointment>, term: string)
    ensures Filtered(s, Lower(term)) == Filtered(s, term)
  {
    LowerIdempotent(term);
    FilterAgrees(s, (a: Appointment) => Matches(a, Lower(term)), (a: Appointment) => Matches(a, term));
  }

  // ---------------------------------------------------------------------------
  // appointmentStats

  datatype AppointmentStats = AppointmentStats(total: nat, scheduled: nat, inProgress: nat, completed: nat)

  lemma {:induction false} StatusCountsPartition(s: seq<Appointment>)
    ensures CountKey(s, StatusOf, Scheduled) + CountKey(s, StatusOf, Completed)
          + CountKey(s, StatusOf, Cancelled) + CountKey(s, StatusOf, InProgress) == |s|
  {
    if s != [] {
      match StatusOf(s[0]) {
        case Scheduled =>
        case Completed =>
        case Cancelled =>
        case InProgress =>
      }
      CountKeyUnfold(s, StatusOf, Scheduled);
      CountKeyUnfold(s, StatusOf, Completed);
      CountKeyUnfold(s, StatusOf, Cancelled);
      CountKeyUnfold(s, StatusOf, InProgress);
      StatusCountsPartition(s[1..]);
    }
  }

  /** The stat cards. Cancelled appointments have no card, so the three counted
      statuses add up to the total less the cancelled ones. */
  function Stats(s: seq<Appointment>): (r: AppointmentStats)
    ensures r.total == |s|
    ensures r.scheduled == multiset(MapSeq(s, StatusOf))[Scheduled]
    ensures r.inProgress == multiset(MapSeq(s, StatusOf))[InProgress]
    ensures r.completed == multiset(MapSeq(s, StatusOf))[Completed]
    ensures r.scheduled + r.inProgress + r.completed + multiset(MapSeq(s, StatusOf))[Cancelled] == r.total
  {
    CountKeyIsMultiplicity(s, StatusOf, Scheduled);
    CountKeyIsMultiplicity(s, StatusOf, InProgress);
    CountKeyIsMultiplicity(s, StatusOf, Completed);
    CountKeyIsMultiplicity(s, StatusOf, Cancelled);
    StatusCountsPartition(s);
    AppointmentStats(|s|, CountKey(s, StatusOf, Scheduled), CountKey(s, StatusOf, InProgress),
                     CountKey(s, StatusOf, Completed))
  }

  // ---------------------------------------------------------------------------
  // The page's state

  class Appointments {
    var appointments: seq<Appointment>

    ghost predicate Valid()
      reads this
    {
      AppointmentsInvariant(appointments)
    }

    constructor ()
      ensures Valid() && appointments == SampleAppointments
    {
      appointments := SampleAppointments;
      var ids := MapSeq(SampleAppointments, IdOf);
      assert NatToString(1) == "1" && NatToString(2) == "2";
      assert NatToString(3) == "3" && NatToString(4) == "4";
      forall i | 0 <= i < |ids|
        ensures ids[i] == NatToString(i + 1)
      {
        assert ids[i] == IdOf(SampleAppointments[i]);
        assert i == 0 || i == 1 || i == 2 || i == 3;
      }
    }

    /** The status menu of one row. */
    method UpdateAppointmentStatus(appointmentId: string, newStatus: AppointmentStatus)
      requires Valid()
      modifies this
      ensures Valid()
      ensures appointments == StatusUpdated(old(appointments), appointmentId, newStatus)
    {
      StatusUpdatePreservesInvariant(appointments, appointmentId, newStatus);
      appointments := StatusUpdated(appointments, appointmentId, newStatus);
    }
  }
}
