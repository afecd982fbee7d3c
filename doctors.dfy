/** The doctor directory (src/pages/Doctors.tsx): the list of doctors kept in page
    state, the per-row availability menu, the search box, the stat cards and the two
    lookups that style an availability. */
module DoctorsPage {
  import opened Text
  import opened Decimal
  import opened Seqs

  datatype Option<T> = None | Some(value: T)

  datatype Gender = Male | Female

  datatype Availability = Available | Busy | OffDuty

  datatype Doctor = Doctor(
    id: string,
    name: string,
    specialization: string,
    gender: Gender,
    location: string,
    availability: Availability,
    experience: string,
    phone: string,
    nextAvailable: string)

  function IdOf(d: Doctor): string { d.id }

  function AvailabilityOf(d: Doctor): Availability { d.availability }

  /** The page's initial state. */
  const SampleDoctors: seq<Doctor> := [
    Doctor("1", "Dr. Sarah Wilson", "Cardiology", Female, "Room 101", Available, "15 years",
           "(555) 111-2222", "Now"),
    Doctor("2", "Dr. Michael Johnson", "Pediatrics", Male, "Room 203", Busy, "12 years",
           "(555) 333-4444", "2:30 PM"),
    Doctor("3", "Dr. Lisa Chen", "Dermatology", Female, "Room 105", Available, "8 years",
           "(555) 555-6666", "Now"),
    Doctor("4", "Dr. James Miller", "Orthopedics", Male, "Room 301", OffDuty, "20 years",
           "(555) 777-8888", "Tomorrow 9:00 AM"),
    Doctor("5", "Dr. Amanda Rodriguez", "Neurology", Female, "Room 205", Available, "10 years",
           "(555) 999-0000", "Now")
  ]

  /** The page never adds or removes doctors, so the ids stay "1", "2", ... */
  ghost predicate DoctorsInvariant(s: seq<Doctor>)
  {
    SequentialIds(MapSeq(s, IdOf))
  }

  lemma IdAt(s: seq<Doctor>, i: nat)
    requires DoctorsInvariant(s) && i < |s|
    ensures s[i].id == NatToString(i + 1)
  {
    assert MapSeq(s, IdOf)[i] == s[i].id;
  }

  // ---------------------------------------------------------------------------
  // updateDoctorAvailability

  /** The state updater of `updateDoctorAvailability`: every entry whose id is
      `doctorId` gets `newAvailability`; everything else is kept. */
  function AvailabilityUpdated(s: seq<Doctor>, doctorId: string, newAvailability: Availability): (r: seq<Doctor>)
    ensures |r| == |s|
    ensures forall i :: 0 <= i < |s| ==>
              r[i] == if s[i].id == doctorId then s[i].(availability := newAvailability) else s[i]
  {
    if s == [] then []
    else [if s[0].id == doctorId then s[0].(availability := newAvailability) else s[0]]
         + AvailabilityUpdated(s[1..], doctorId, newAvailability)
  }

  lemma AvailabilityUpdateUnknownId(s: seq<Doctor>, doctorId: string, newAvailability: Availability)
    requires forall i :: 0 <= i < |s| ==> s[i].id != doctorId
    ensures AvailabilityUpdated(s, doctorId, newAvailability) == s
  {
  }

  lemma AvailabilityUpdateIdempotent(s: seq<Doctor>, doctorId: string, newAvailability: Availability)
    ensures AvailabilityUpdated(AvailabilityUpdated(s, doctorId, newAvailability), doctorId, newAvailability)
         == AvailabilityUpdated(s, doctorId, newAvailability)
  {
  }

  /** With ids "1", "2", ..., the update touches the availability of the one entry at k. */
  lemma AvailabilityUpdateSingleEntry(s: seq<Doctor>, k: nat, newAvailability: Availability)
    requires DoctorsInvariant(s) && k < |s|
    ensures AvailabilityUpdated(s, NatToString(k + 1), newAvailability)
         == s[k := s[k].(availability := newAvailability)]
  {
    var r := AvailabilityUpdated(s, NatToString(k + 1), newAvailability);
    var t := s[k := s[k].(availability := newAvailability)];
    forall i | 0 <= i < |s|
      ensures r[i] == t[i]
    {
      IdAt(s, i);
      NatToStringInjective(i + 1, k + 1);
    }
  }

  lemma AvailabilityUpdatePreservesInvariant(s: seq<Doctor>, doctorId: string, newAvailability: Availability)
    requires DoctorsInvariant(s)
    ensures DoctorsInvariant(AvailabilityUpdated(s, doctorId, newAvailability))
  {
    var r := AvailabilityUpdated(s, doctorId, newAvailability);
    forall i | 0 <= i < |s|
      ensures MapSeq(r, IdOf)[i] == MapSeq(s, IdOf)[i]
    {
      assert MapSeq(r, IdOf)[i] == IdOf(r[i]);
      assert MapSeq(s, IdOf)[i] == IdOf(s[i]);
    }
    assert MapSeq(r, IdOf) == MapSeq(s, IdOf);
  }

  // ---------------------------------------------------------------------------
  // filteredDoctors

  /** The search box: the lower-cased term in the lower-cased name, specialization
      or location. */
  predicate Matches(d: Doctor, term: string): (b: bool)
    ensures b <==> Occurs(Lower(d.name), Lower(term))
                   || Occurs(Lower(d.specialization), Lower(term))
                   || Occurs(Lower(d.location), Lower(term))
    ensures term == "" ==> b
  {
    IncludesEmpty(Lower(d.name));
    Includes(Lower(d.name), Lower(term))
    || Includes(Lower(d.specialization), Lower(term))
    || Includes(Lower(d.location), Lower(term))
  }

  function Filtered(s: seq<Doctor>, term: string): (r: seq<Doctor>)
    ensures IsSubsequence(r, s)
    ensures forall d :: d in r ==> d in s && Matches(d, term)
    ensures forall d :: d in s && Matches(d, term) ==> d in r
    ensures forall d :: d in s ==> multiset(r)[d] == if Matches(d, term) then multiset(s)[d] else 0
  {
    var keep := (d: Doctor) => Matches(d, term);
    FilterIsSubsequence(s, keep);
    Filter(s, keep)
  }

  lemma EmptyTermKeepsAll(s: seq<Doctor>)
    ensures Filtered(s, "") == s
  {
    forall d | d in s
      ensures Matches(d, "")
    {
      IncludesEmpty(Lower(d.name));
    }
    FilterKeepsAll(s, (d: Doctor) => Matches(d, ""));
  }

  /** Every searched field is lower-cased, so the case of the term does not matter. */
  lemma SearchIgnoresCase(s: seq<Doctor>, term: string)
    ensures Filtered(s, Lower(term)) == Filtered(s, term)
  {
    LowerIdempotent(term);
    FilterAgrees(s, (d: Doctor) => Matches(d, Lower(term)), (d: Doctor) => Matches(d, term));
  }

  // ---------------------------------------------------------------------------
  // doctorStats

  datatype DoctorStats = DoctorStats(total: nat, available: nat, busy: nat, offDuty: nat)

  lemma {:induction false} AvailabilityCountsPartition(s: seq<Doctor>)
    ensures CountKey(s, AvailabilityOf, Available) + CountKey(s, AvailabilityOf, Busy)
          + CountKey(s, AvailabilityOf, OffDuty) == |s|
  {
    if s != [] {
      match AvailabilityOf(s[0]) {
        case Available =>
        case Busy =>
        case OffDuty =>
      }
      CountKeyUnfold(s, AvailabilityOf, Available);
      CountKeyUnfold(s, AvailabilityOf, Busy);
      CountKeyUnfold(s, AvailabilityOf, OffDuty);
      AvailabilityCountsPartition(s[1..]);
    }
  }

  /** The stat cards. Every availability has a card, so the three add up to the total. */
  function Stats(s: seq<Doctor>): (r: DoctorStats)
    ensures r.total == |s|
    ensures r.available == multiset(MapSeq(s, AvailabilityOf))[Available]
    ensures r.busy == multiset(MapSeq(s, AvailabilityOf))[Busy]
    ensures r.offDuty == multiset(MapSeq(s, AvailabilityOf))[OffDuty]
    ensures r.available + r.busy + r.offDuty == r.total
  {
    CountKeyIsMultiplicity(s, AvailabilityOf, Available);
    CountKeyIsMultiplicity(s, AvailabilityOf, Busy);
    CountKeyIsMultiplicity(s, AvailabilityOf, OffDuty);
    AvailabilityCountsPartition(s);
    DoctorStats(|s|, CountKey(s, AvailabilityOf, Available), CountKey(s, AvailabilityOf, Busy),
                CountKey(s, AvailabilityOf, OffDuty))
  }

  // ---------------------------------------------------------------------------
  // getAvailabilityColor and getAvailabilityBadgeVariant. The `default` branches of
  // the source's switches cannot be reached on the closed enum, and the match here
  // has no such branch.

  function AvailabilityColor(a: Availability): (r: string)
    ensures AvailabilityOfColor(r) == Some(a)
  {
    match a
    case Available => "text-success"
    case Busy => "text-warning"
    case OffDuty => "text-muted-foreground"
  }

  function AvailabilityBadgeVariant(a: Availability): (r: string)
    ensures AvailabilityOfBadgeVariant(r) == Some(a)
  {
    match a
    case Available => "default"
    case Busy => "secondary"
    case OffDuty => "outline"
  }

  /** Reads a text colour class back as the availability it styles. */
  function AvailabilityOfColor(c: string): Option<Availability>
  {
    if c == "text-success" then Some(Available)
    else if c == "text-warning" then Some(Busy)
    else if c == "text-muted-foreground" then Some(OffDuty)
    else None
  }

  function AvailabilityOfBadgeVariant(v: string): Option<Availability>
  {
    if v == "default" then Some(Available)
    else if v == "secondary" then Some(Busy)
    else if v == "outline" then Some(OffDuty)
    else None
  }

  /** Each lookup tells the three availabilities apart: the style can be read back
      as the availability, so no two availabilities share a colour or a variant. */
  lemma StylesDistinguishAvailability(a: Availability, b: Availability)
    ensures AvailabilityOfColor(AvailabilityColor(a)) == Some(a)
    ensures AvailabilityOfBadgeVariant(AvailabilityBadgeVariant(a)) == Some(a)
    ensures AvailabilityColor(a) == AvailabilityColor(b) <==> a == b
    ensures AvailabilityBadgeVariant(a) == AvailabilityBadgeVariant(b) <==> a == b
  {
  }

  // ---------------------------------------------------------------------------
  // The page's state

  class Doctors {
    var doctors: seq<Doctor>

    ghost predicate Valid()
      reads this
    {
      DoctorsInvariant(doctors)
    }

    constructor ()
      ensures Valid() && doctors == SampleDoctors
    {
      doctors := SampleDoctors;
      var ids := MapSeq(SampleDoctors, IdOf);
      assert NatToString(1) == "1" && NatToString(2) == "2" && NatToString(3) == "3";
      assert NatToString(4) == "4" && NatToString(5) == "5";
      forall i | 0 <= i < |ids|
        ensures ids[i] == NatToString(i + 1)
      {
        assert ids[i] == IdOf(SampleDoctors[i]);
        assert i == 0 || i == 1 || i == 2 || i == 3 || i == 4;
      }
    }

    /** The availability menu of one row. */
    method UpdateDoctorAvailability(doctorId: string, newAvailability: Availability)
      requires Valid()
      modifies this
      ensures Valid()
      ensures doctors == AvailabilityUpdated(old(doctors), doctorId, newAvailability)
    {
      AvailabilityUpdatePreservesInvariant(doctors, doctorId, newAvailability);
      doctors := AvailabilityUpdated(doctors, doctorId, newAvailability);
    }
  }
}
