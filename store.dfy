/** The in-memory hospital store `appState`: three ordered collections the
    forms update in place, the constant bed and supply counters, and the
    merge that restores the collections from a stored snapshot. Ids and
    dates, which the source draws from the clock, are parameters; every
    confirmation dialog is taken as accepted. */
module Store {
  import opened Seqs
  import opened Strings
  import opened Records
  import opened Schedule

  /** The collections the store persists. */
  datatype Collections = Collections(patients: seq<Patient>, professionals: seq<Professional>,
                                     appointments: seq<Appointment>)

  /** A parsed snapshot; each key may be missing. A present key always
      replaces, an empty list included. */
  datatype Snapshot = Snapshot(appointments: Option<seq<Appointment>>,
                               professionals: Option<seq<Professional>>,
                               patients: Option<seq<Patient>>)

  /** What reading the storage slot gives: nothing stored (or the empty
      string), text whose parsing fails or yields `null`, or a snapshot. */
  datatype StoredSlot = NoData | Unparsable | Parsed(snapshot: Snapshot)

  /** The stored value when present, the current one otherwise. */
  function Pick<T>(stored: Option<T>, current: T): (r: T)
    ensures stored.Some? ==> r == stored.value
    ensures stored.None? ==> r == current
  {
    match stored
    case Some(v) => v
    case None => current
  }

  /** The merge of `loadStateFromStorage`: a collection changes only when
      the slot parsed and the snapshot has it, and then it takes the stored
      value. */
  function Merge(c: Collections, slot: StoredSlot): (r: Collections)
    ensures !slot.Parsed? ==> r == c
    ensures r.patients != c.patients ==> slot.Parsed? && slot.snapshot.patients == Some(r.patients)
    ensures r.professionals != c.professionals ==> slot.Parsed? && slot.snapshot.professionals == Some(r.professionals)
    ensures r.appointments != c.appointments ==> slot.Parsed? && slot.snapshot.appointments == Some(r.appointments)
    ensures slot.Parsed? && slot.snapshot.patients.Some? ==> r.patients == slot.snapshot.patients.value
    ensures slot.Parsed? && slot.snapshot.professionals.Some? ==> r.professionals == slot.snapshot.professionals.value
    ensures slot.Parsed? && slot.snapshot.appointments.Some? ==> r.appointments == slot.snapshot.appointments.value
  {
    match slot
    case Parsed(snap) =>
      Collections(Pick(snap.patients, c.patients), Pick(snap.professionals, c.professionals),
                  Pick(snap.appointments, c.appointments))
    case _ => c
  }

  /** The payload `persist` writes: all three collections. */
  function Payload(c: Collections): (s: Snapshot)
    ensures s.patients.Some? && s.professionals.Some? && s.appointments.Some?
  {
    Snapshot(Some(c.appointments), Some(c.professionals), Some(c.patients))
  }

  /** Round trip: loading what was persisted restores every collection,
      whatever the store held before. */
  lemma LoadPersisted(saved: Collections, current: Collections)
    ensures Merge(current, Parsed(Payload(saved))) == saved
  {
  }

  /** Loading the same slot twice is loading it once. */
  lemma MergeIdempotent(c: Collections, slot: StoredSlot)
    ensures Merge(Merge(c, slot), slot) == Merge(c, slot)
  {
  }

  /** The outcome of the public telemedicine form. */
  datatype TeleOutcome = Booked | MissingField | SlotTaken

  class HospitalStore {
    var patients: seq<Patient>
    var professionals: seq<Professional>
    var appointments: seq<Appointment>
    const beds: Beds
    const supplies: Supplies

    function Contents(): Collections
      reads this
    {
      Collections(patients, professionals, appointments)
    }

    /** The initial `appState`: the sample patients and professionals, no
        appointments. */
    constructor ()
      ensures patients == SamplePatients && professionals == SampleProfessionals && appointments == []
      ensures beds == SampleBeds && supplies == SampleSupplies
    {
      patients := SamplePatients;
      professionals := SampleProfessionals;
      appointments := [];
      beds := SampleBeds;
      supplies := SampleSupplies;
    }

    /** `loadStateFromStorage`: merges the slot into the collections; the
        bed and supply counters are never loaded. */
    method LoadStateFromStorage(slot: StoredSlot)
      modifies this
      ensures Contents() == Merge(old(Contents()), slot)
    {
      if slot.Parsed? {
        var snap := slot.snapshot;
        if snap.appointments.Some? {
          appointments := snap.appointments.value;
        }
        if snap.professionals.Some? {
          professionals := snap.professionals.value;
        }
        if snap.patients.Some? {
          patients := snap.patients.value;
        }
      }
    }

    /** The new-patient form: appends one record whose last visit is
        `today` and whose history holds the notes when there are any. */
    method RegisterPatient(id: int, name: string, age: int, contact: string, notes: string, today: string)
      modifies this
      ensures patients == old(patients) + [Patient(id, name, age, contact, today, if notes == "" then [] else [notes])]
      ensures professionals == old(professionals) && appointments == old(appointments)
    {
      var history := if notes == "" then [] else [notes];
      patients := patients + [Patient(id, name, age, contact, today, history)];
    }

    /** The new-professional form: every field is trimmed; a blank name or
        role rejects the form and changes nothing. */
    method RegisterProfessional(id: int, name: string, role: string, specialty: string, contact: string)
      returns (ok: bool)
      modifies this
      ensures ok <==> Trim(name) != [] && Trim(role) != []
      ensures ok ==> (professionals ==
                old(professionals) + [Professional(id, Trim(name), Trim(role), Trim(specialty), Trim(contact))])
      ensures !ok ==> professionals == old(professionals)
      ensures patients == old(patients) && appointments == old(appointments)
    {
      var n, r := Trim(name), Trim(role);
      if n == [] || r == [] {
        return false;
      }
      professionals := professionals + [Professional(id, n, r, Trim(specialty), Trim(contact))];
      ok := true;
    }

    /** The edit form: overwrites name, role, specialty and contact of the
        first professional carrying `id`, untrimmed; without one, reports
        "not found" and changes nothing. */
    method EditProfessional(id: int, name: string, role: string, specialty: string, contact: string)
      returns (found: bool)
      modifies this
      ensures found <==> exists k :: 0 <= k < |old(professionals)| && old(professionals)[k].id == id
      ensures !found ==> professionals == old(professionals)
      ensures found ==>
                var i := FirstIndex(old(professionals), ProfessionalId, id).value;
                professionals == old(professionals)[i := Professional(id, name, role, specialty, contact)]
      ensures |professionals| == |old(professionals)|
      ensures forall k :: 0 <= k < |professionals| ==> professionals[k].id == old(professionals)[k].id
      ensures patients == old(patients) && appointments == old(appointments)
    {
      match FirstIndex(professionals, ProfessionalId, id)
      case None =>
        found := false;
      case Some(i) =>
        professionals := professionals[i := professionals[i].(name := name, role := role,
                                                               specialty := specialty, contact := contact)];
        found := true;
    }

    /** `removeProfessional(id)`: drops every professional carrying `id`,
        keeping the rest in order; an unchanged length is the "not found"
        path. Appointments that name the professional stay. */
    method RemoveProfessional(id: int) returns (removed: bool)
      modifies this
      ensures professionals == Without(old(professionals), ProfessionalId, id)
      ensures removed <==> |professionals| != |old(professionals)|
      ensures removed <==> exists k :: 0 <= k < |old(professionals)| && old(professionals)[k].id == id
      ensures forall k :: 0 <= k < |professionals| ==> professionals[k].id != id
      ensures patients == old(patients) && appointments == old(appointments)
    {
      var initialLen := |professionals|;
      professionals := Without(professionals, ProfessionalId, id);
      removed := |professionals| != initialLen;
    }

    /** `cancelAppointment(id)`: drops every appointment carrying `id`,
        keeping the rest in order; an unchanged length is the "not found"
        path. No slot conflict can appear by cancelling. */
    method CancelAppointment(id: int) returns (cancelled: bool)
      modifies this
      ensures appointments == Without(old(appointments), AppointmentId, id)
      ensures cancelled <==> |appointments| != |old(appointments)|
      ensures cancelled <==> exists k :: 0 <= k < |old(appointments)| && old(appointments)[k].id == id
      ensures forall k :: 0 <= k < |appointments| ==> appointments[k].id != id
      ensures forall p :: SlotsDistinct(old(appointments), p) ==> SlotsDistinct(appointments, p)
      ensures patients == old(patients) && professionals == old(professionals)
    {
      var initialLength := |appointments|;
      forall p | SlotsDistinct(appointments, p)
        ensures SlotsDistinct(Without(appointments, AppointmentId, id), p)
      {
        CancelKeepsDistinct(appointments, id, p);
      }
      appointments := Without(appointments, AppointmentId, id);
      cancelled := |appointments| != initialLength;
    }

    /** The quick-scheduling form: a zero patient or professional id, or a
        blank date or time, rejects it; otherwise one appointment is
        appended without any conflict check. */
    method QuickSchedule(id: int, patientId: int, profId: int, date: string, time: string)
      returns (ok: bool)
      modifies this
      ensures ok <==> patientId != 0 && profId != 0 && date != "" && time != ""
      ensures ok ==> appointments == old(appointments) + [Appointment(id, Internal(patientId), profId, date, time)]
      ensures !ok ==> appointments == old(appointments)
      ensures ok ==> IsTimeOccupied(appointments, date, time, profId)
      ensures patients == old(patients) && professionals == old(professionals)
    {
      if patientId == 0 || profId == 0 || date == "" || time == "" {
        return false;
      }
      var a := Appointment(id, Internal(patientId), profId, date, time);
      appointments := appointments + [a];
      assert InSlot(appointments[|appointments| - 1], date, time, profId);
      ok := true;
    }

    /** The public telemedicine form: name, contact and symptoms are
        trimmed; a blank field rejects it, a slot professional 3 already
        has rejects it, and otherwise one appointment with professional 3
        is appended, which then occupies the slot. */
    method BookTelemedicine(id: int, name: string, contact: string, symptoms: string, date: string, time: string)
      returns (outcome: TeleOutcome)
      modifies this
      ensures outcome == MissingField <==>
                Trim(name) == [] || Trim(contact) == [] || Trim(symptoms) == [] || date == "" || time == ""
      ensures outcome == SlotTaken <==>
                outcome != MissingField && IsTimeOccupied(old(appointments), date, time, TelemedProfId)
      ensures outcome == Booked ==> (appointments == old(appointments) +
                [Appointment(id, Public(Trim(name), Trim(contact), Trim(symptoms)), TelemedProfId, date, time)])
      ensures outcome != Booked ==> appointments == old(appointments)
      ensures outcome == Booked ==> IsTimeOccupied(appointments, date, time, TelemedProfId)
      ensures SlotsDistinct(old(appointments), TelemedProfId) ==> SlotsDistinct(appointments, TelemedProfId)
      ensures patients == old(patients) && professionals == old(professionals)
    {
      var n, c, s := Trim(name), Trim(contact), Trim(symptoms);
      if n == [] || c == [] || s == [] || date == "" || time == "" {
        return MissingField;
      }
      if IsTimeOccupied(appointments, date, time, TelemedProfId) {
        return SlotTaken;
      }
      var a := Appointment(id, Public(n, c, s), TelemedProfId, date, time);
      DistinctAppend(appointments, a, TelemedProfId);
      appointments := appointments + [a];
      assert InSlot(appointments[|appointments| - 1], date, time, TelemedProfId);
      outcome := Booked;
    }
  }
}
