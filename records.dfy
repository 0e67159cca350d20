/** The records the hospital store keeps, and its built-in sample data. */
module Records {

  /** A patient; `last` is the date of the last visit as an ISO string and
      `history` the clinical notes in insertion order. */
  datatype Patient = Patient(id: int, name: string, age: int, contact: string,
                             last: string, history: seq<string>)

  /** A member of staff; `role` is free text, classified only for the
      dashboard. A missing contact is the empty string. */
  datatype Professional = Professional(id: int, name: string, role: string,
                                       specialty: string, contact: string)

  /** Who an appointment is for: a registered patient when booked from the
      staff area, or a name with contact and symptoms when booked through
      the public telemedicine form. */
  datatype Booking =
    | Internal(patientId: int)
    | Public(name: string, contact: string, symptoms: string)

  /** An appointment with professional `prof` on `date` (YYYY-MM-DD) at
      `time` (HH:MM). */
  datatype Appointment = Appointment(id: int, booking: Booking, prof: int,
                                     date: string, time: string)

  datatype Beds = Beds(total: nat, occupied: nat)

  datatype Supplies = Supplies(critical: nat)

  function ProfessionalId(p: Professional): int { p.id }
  function AppointmentId(a: Appointment): int { a.id }

  /** The professional the public telemedicine form always books. */
  const TelemedProfId: int := 3

  /** The time slots the telemedicine form offers. */
  const AvailableTimes: seq<string> := ["08:00", "09:00", "10:00", "13:00", "14:00", "15:00"]

  const SamplePatients: seq<Patient> := [
    Patient(1, "João Silva", 42, "(48) 99123-4567", "2025-11-27", ["Hipertensão"]),
    Patient(2, "Mariana Costa", 29, "(48) 99876-5544", "2025-11-29", ["Alergia a penicilina"]),
    Patient(3, "Carlos Souza", 63, "(48) 98811-2233", "2025-11-20", ["Diabetes tipo 2"])
  ]

  const SampleProfessionals: seq<Professional> := [
    Professional(1, "Dr. Ana Pereira", "Médica", "Cardiologia", ""),
    Professional(2, "Enf. Bruno Lima", "Enfermeiro", "Urgência", ""),
    Professional(3, "Dr. Felipe Rocha", "Médico", "Telemedicina", "")
  ]

  const SampleBeds: Beds := Beds(120, 34)

  const SampleSupplies: Supplies := Supplies(4)
}
