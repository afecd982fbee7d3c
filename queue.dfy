/** The walk-in queue board (src/pages/Queue.tsx): the list of queued patients kept in
    page state, the status menu, the "Add Patient to Queue" button, the search box and
    the stat cards. */
module QueuePage {
  import opened Text
  import opened Decimal
  import opened Seqs

  datatype QueueStatus = Waiting | InProgress | Completed | Urgent

  datatype Priority = NormalPriority | UrgentPriority

  /** A queued patient. `checkInTime` is the time of day rendered when the patient
      was added; it is carried as an opaque string. */
  datatype QueuePatient = QueuePatient(
    id: string,
    queueNumber: int,
    name: string,
    phone: string,
    status: QueueStatus,
    checkInTime: string,
    estimatedWaitTime: string,
    priority: Priority)

  function IdOf(p: QueuePatient): string { p.id }

  function StatusOf(p: QueuePatient): QueueStatus { p.status }

  /** The page's initial state. */
  const SamplePatients: seq<QueuePatient> := [
    QueuePatient("1", 1, "John Smith", "(555) 123-4567", Waiting, "09:30 AM", "15 mins", NormalPriority),
    QueuePatient("2", 2, "Sarah Johnson", "(555) 234-5678", InProgress, "09:45 AM", "0 mins", NormalPriority),
    QueuePatient("3", 3, "Mike Davis", "(555) 345-6789", Completed, "10:00 AM", "Completed", NormalPriority),
    QueuePatient("4", 4, "Emily Wilson", "(555) 456-7890", Urgent, "10:15 AM", "Next", UrgentPriority)
  ]

  predicate StrictlyIncreasing(s: seq<QueuePatient>)
  {
    forall i, j :: 0 <= i < j < |s| ==> s[i].queueNumber < s[j].queueNumber
  }

  /** What every reachable state of the board satisfies: the queue is never empty
      (nothing removes a patient), ids are "1", "2", ... in list order, and queue
      numbers grow strictly along the list. */
  ghost predicate QueueInvariant(s: seq<QueuePatient>)
  {
    s != [] && SequentialIds(MapSeq(s, IdOf)) && StrictlyIncreasing(s)
  }

  // ---------------------------------------------------------------------------
  // updatePatientStatus

  /** The state updater of `updatePatientStatus`: every entry whose id is `patientId`
      gets `newStatus`; every other entry, and every other field, is kept. */
  function StatusUpdated(s: seq<QueuePatient>, patientId: string, newStatus: QueueStatus): (r: seq<QueuePatient>)
    ensures |r| == |s|
    ensures forall i :: 0 <= i < |s| ==>
              r[i] == if s[i].id == patientId then s[i].(status := newStatus) else s[i]
  {
    if s == [] then []
    else [if s[0].id == patientId then s[0].(status := newStatus) else s[0]]
         + StatusUpdated(s[1..], patientId, newStatus)
  }

  /** An id that names no entry leaves the list as it is. */
  lemma StatusUpdateUnknownId(s: seq<QueuePatient>, patientId: string, newStatus: QueueStatus)
    requires forall i :: 0 <= i < |s| ==> s[i].id != patientId
    ensures StatusUpdated(s, patientId, newStatus) == s
  {
  }

  /** Choosing the same status twice is the same as choosing it once. */
  lemma StatusUpdateIdempotent(s: seq<QueuePatient>, patientId: string, newStatus: QueueStatus)
    ensures StatusUpdated(StatusUpdated(s, patientId, newStatus), patientId, newStatus)
         == StatusUpdated(s, patientId, newStatus)
  {
  }

  lemma IdAt(s: seq<QueuePatient>, i: nat)
    requires SequentialIds(MapSeq(s, IdOf)) && i < |s|
    ensures s[i].id == NatToString(i + 1)
  {
    assert MapSeq(s, IdOf)[i] == s[i].id;
  }

  /** On a board numbered "1", "2", ..., the update touches the one entry at
      position k and only its status field. */
  lemma StatusUpdateSingleEntry(s: seq<QueuePatient>, k: nat, newStatus: QueueStatus)
    requires SequentialIds(MapSeq(s, IdOf)) && k < |s|
    ensures StatusUpdated(s, NatToString(k + 1), newStatus) == s[k := s[k].(status := newStatus)]
  {
    var r := StatusUpdated(s, NatToString(k + 1), newStatus);
    var t := s[k := s[k].(status := newStatus)];
    forall i | 0 <= i < |s|
      ensures r[i] == t[i]
    {
      IdAt(s, i);
      NatToStringInjective(i + 1, k + 1);
    }
  }

  lemma StatusUpdatePreservesInvariant(s: seq<QueuePatient>, patientId: string, newStatus: QueueStatus)
    requires QueueInvariant(s)
    ensures QueueInvariant(StatusUpdated(s, patientId, newStatus))
  {
    var r := StatusUpdated(s, patientId, newStatus);
    forall i | 0 <= i < |s|
      ensures MapSeq(r, IdOf)[i] == MapSeq(s, IdOf)[i]
    {
      assert MapSeq(r, IdOf)[i] == IdOf(r[i]);
      assert MapSeq(s, IdOf)[i] == IdOf(s[i]);
    }
    assert MapSeq(r, IdOf) == MapSeq(s, IdOf);
  }

  // ---------------------------------------------------------------------------
  // addNewPatient

  /** `Math.max(...s.map(p => p.queueNumber))` on a non-empty list. */
  function MaxQueueNumber(s: seq<QueuePatient>): (m: int)
    requires s != []
    ensures forall i :: 0 <= i < |s| ==> s[i].queueNumber <= m
    ensures exists i :: 0 <= i < |s| && s[i].queueNumber == m
  {
    if |s| == 1 then s[0].queueNumber
    else
      var rest := MaxQueueNumber(s[1..]);
      if s[0].queueNumber >= rest then s[0].queueNumber else rest
  }

  /** The entry `addNewPatient` builds from the current list. */
  function NewPatient(s: seq<QueuePatient>, checkInTime: string): (p: QueuePatient)
    requires s != []
    ensures forall i :: 0 <= i < |s| ==> s[i].queueNumber < p.queueNumber
    ensures exists i :: 0 <= i < |s| && p.queueNumber == s[i].queueNumber + 1
  {
    QueuePatient(NatToString(|s| + 1), MaxQueueNumber(s) + 1, "New Patient", "(555) 000-0000",
                 Waiting, checkInTime, "20 mins", NormalPriority)
  }

  /** On a board whose numbers grow along the list, the new number is the last one plus one. */
  lemma NewNumberFollowsLast(s: seq<QueuePatient>, checkInTime: string)
    requires s != [] && StrictlyIncreasing(s)
    ensures NewPatient(s, checkInTime).queueNumber == s[|s| - 1].queueNumber + 1
  {
    var m := MaxQueueNumber(s);
    var i :| 0 <= i < |s| && s[i].queueNumber == m;
    assert i == |s| - 1 || s[i].queueNumber < s[|s| - 1].queueNumber;
  }

  /** Appending the new entry keeps the board invariant: its id is fresh and the
      next in sequence, and its number is above every number before it. */
  lemma AddPreservesInvariant(s: seq<QueuePatient>, checkInTime: string)
    requires QueueInvariant(s)
    ensures QueueInvariant(s + [NewPatient(s, checkInTime)])
    ensures NewPatient(s, checkInTime).id !in MapSeq(s, IdOf)
  {
    var p := NewPatient(s, checkInTime);
    NextIdIsFresh(MapSeq(s, IdOf));
    MapSeqAppend(s, p, IdOf);
  }

  // ---------------------------------------------------------------------------
  // filteredPatients

  /** The search box: the lower-cased term in the lower-cased name, or the raw term
      in the decimal queue number. */
  predicate Matches(p: QueuePatient, term: string): (b: bool)
    ensures b <==> Occurs(Lower(p.name), Lower(term))
                   || Occurs(IntToString(p.queueNumber), term)
    ensures term == "" ==> b
  {
    IncludesEmpty(Lower(p.name));
    Includes(Lower(p.name), Lower(term))
    || Includes(IntToString(p.queueNumber), term)
  }

  function Filtered(s: seq<QueuePatient>, term: string): (r: seq<QueuePatient>)
    ensures IsSubsequence(r, s)
    ensures forall p :: p in r ==> p in s && Matches(p, term)
    ensures forall p :: p in s && Matches(p, term) ==> p in r
    ensures forall p :: p in s ==> multiset(r)[p] == if Matches(p, term) then multiset(s)[p] else 0
  {
    var keep := (p: QueuePatient) => Matches(p, term);
    FilterIsSubsequence(s, keep);
    Filter(s, keep)
  }

  /** An empty search box shows the whole queue. */
  lemma EmptyTermKeepsAll(s: seq<QueuePatient>)
    ensures Filtered(s, "") == s
  {
    forall p | p in s
      ensures Matches(p, "")
    {
      IncludesEmpty(Lower(p.name));
    }
    FilterKeepsAll(s, (p: QueuePatient) => Matches(p, ""));
  }

  // ---------------------------------------------------------------------------
  // queueStats

  datatype QueueStats = QueueStats(total: nat, waiting: nat, inProgress: nat, urgent: nat)

  /** Every entry carries exactly one of the four statuses. */
  lemma {:induction false} StatusCountsPartition(s: seq<QueuePatient>)
    ensures CountKey(s, StatusOf, Waiting) + CountKey(s, StatusOf, InProgress)
          + CountKey(s, StatusOf, Completed) + CountKey(s, StatusOf, Urgent) == |s|
  {
    if s != [] {
      match StatusOf(s[0]) {
        case Waiting =>
        case InProgress =>
        case Completed =>
        case Urgent =>
      }
      CountKeyUnfold(s, StatusOf, Waiting);
      CountKeyUnfold(s, StatusOf, InProgress);
      CountKeyUnfold(s, StatusOf, Completed);
      CountKeyUnfold(s, StatusOf, Urgent);
      StatusCountsPartition(s[1..]);
    }
  }

  /** The stat cards. Completed entries have no card, so the three counted statuses
      add up to the total less the completed ones. */
  function Stats(s: seq<QueuePatient>): (r: QueueStats)
    ensures r.total == |s|
    ensures r.waiting == multiset(MapSeq(s, StatusOf))[Waiting]
    ensures r.inProgress == multiset(MapSeq(s, StatusOf))[InProgress]
    ensures r.urgent == multiset(MapSeq(s, StatusOf))[Urgent]
    ensures r.waiting + r.inProgress + r.urgent + multiset(MapSeq(s, StatusOf))[Completed] == r.total
  {
    CountKeyIsMultiplicity(s, StatusOf, Waiting);
    CountKeyIsMultiplicity(s, StatusOf, InProgress);
    CountKeyIsMultiplicity(s, StatusOf, Urgent);
    CountKeyIsMultiplicity(s, StatusOf, Completed);
    StatusCountsPartition(s);
    QueueStats(|s|, CountKey(s, StatusOf, Waiting), CountKey(s, StatusOf, InProgress),
               CountKey(s, StatusOf, Urgent))
  }

  /** Adding a patient adds one to the total and one to the waiting count. */
  lemma StatsAfterAdd(s: seq<QueuePatient>, checkInTime: string)
    requires s != []
    ensures Stats(s + [NewPatient(s, checkInTime)])
         == Stats(s).(total := |s| + 1, waiting := Stats(s).waiting + 1)
  {
    var p := NewPatient(s, checkInTime);
    CountKeyAppend(s, p, StatusOf, Waiting);
    CountKeyAppend(s, p, StatusOf, InProgress);
    CountKeyAppend(s, p, StatusOf, Urgent);
  }

  /** Moving the entry at k from one status to another moves it between the counts. */
  lemma StatsAfterUpdate(s: seq<QueuePatient>, k: nat, newStatus: QueueStatus, st: QueueStatus)
    requires SequentialIds(MapSeq(s, IdOf)) && k < |s|
    ensures CountKey(StatusUpdated(s, NatToString(k + 1), newStatus), StatusOf, st)
            + (if s[k].status == st then 1 else 0)
         == CountKey(s, StatusOf, st) + (if newStatus == st then 1 else 0)
  {
    StatusUpdateSingleEntry(s, k, newStatus);
    CountKeyReplace(s, k, s[k].(status := newStatus), StatusOf, st);
  }

  // ---------------------------------------------------------------------------
  // The page's state

  class Queue {
    var patients: seq<QueuePatient>

    ghost predicate Valid()
      reads this
    {
      QueueInvariant(patients)
    }

    constructor ()
      ensures Valid() && patients == SamplePatients
    {
      patients := SamplePatients;
      var ids := MapSeq(SamplePatients, IdOf);
      assert NatToString(1) == "1" && NatToString(2) == "2";
      assert NatToString(3) == "3" && NatToString(4) == "4";
      forall i | 0 <= i < |ids|
        ensures ids[i] == NatToString(i + 1)
      {
        assert ids[i] == IdOf(SamplePatients[i]);
        assert i == 0 || i == 1 || i == 2 || i == 3;
      }
    }

    /** The status menu of one row. */
    method UpdatePatientStatus(patientId: string, newStatus: QueueStatus)
      requires Valid()
      modifies this
      ensures Valid()
      ensures patients == StatusUpdated(old(patients), patientId, newStatus)
    {
      StatusUpdatePreservesInvariant(patients, patientId, newStatus);
      patients := StatusUpdated(patients, patientId, newStatus);
    }

    /** The "Add Patient to Queue" button; `checkInTime` is the current time of day. */
    method AddNewPatient(checkInTime: string)
      requires Valid()
      modifies this
      ensures Valid()
      ensures patients == old(patients) + [NewPatient(old(patients), checkInTime)]
    {
      var newPatient := NewPatient(patients, checkInTime);
      AddPreservesInvariant(patients, checkInTime);
      patients := patients + [newPatient];
    }
  }
}
