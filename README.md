# SGHSS hospital store — a Dafny model

SGHSS is a browser demo of a simplified hospital management system. The page
holds its data in one in-memory store, `appState`, defined in `script.js`. The
store has three ordered collections (patients, professionals, appointments)
and two constant counters (beds, critical supplies). Forms update the store in
place. It is saved to and restored from browser storage.

This project models that store and the pure functions around it:

- `Records` holds the datatypes and the built-in sample data.
- `Store.HospitalStore` is a class whose `seq` fields are the three
  collections. Each form handler is a method on it:
  - registering a patient;
  - registering, editing and removing a professional;
  - quick scheduling;
  - public telemedicine booking;
  - cancelling an appointment;
  - loading from storage.
- `Store` also holds the storage merge as a function. It has a round-trip
  lemma against the payload that saving writes.
- `Schedule` holds the slot-conflict predicate `isTimeOccupied`, the
  (date, time) comparator and the sorted view of appointments. The sorted view
  is proved to be a permutation, to be ordered, and to be stable.
- `Search` holds the patient-table filter.
- `Statistics` and `Roles` hold the dashboard counts. `Roles` covers
  `normalizeText`, `isMed` and `isEnf`.
- `Escape` holds `escapeHtml`. It is proved injective through a decoder.
- `Strings` and `Seqs` hold the JavaScript primitives the code relies on:
  - `trim`, `toLowerCase`, `includes` and the string comparison;
  - `filter` and `find`.

Inputs the source takes from outside the model become parameters:

- Ids come from `Date.now()` and dates from `new Date()`, so they are passed in.
- Every `confirm` dialog is taken as accepted.
- Every `alert` becomes a result value, such as `found`, `ok` or `TeleOutcome`.

## Model

| member | source | states |
|---|---|---|
| `Seqs.Without` | script.js:363-366 | removing by id keeps exactly the elements with another id, with their multiplicities, and no element with the id remains; the length is unchanged iff no element carried the id, and then the sequence is unchanged |
| `Seqs.WithoutAppend` | script.js:363-366 | removal distributes over concatenation, so the elements that stay keep their relative order |
| `Seqs.WithoutUnique` | script.js:363-366 | when at most one element carries the id, removal shortens the collection by exactly one if the id was present and by zero otherwise |
| `Seqs.Filter` | script.js:135-137 | `Array.prototype.filter`: an element is in the result iff it is in the input and kept, and the result is no longer than the input |
| `Seqs.FilterLength` | script.js:365 | a filter keeps the length exactly when it drops nothing, which is the "not found" signal |
| `Seqs.FilterAppend` | script.js:135-137 | filtering distributes over concatenation, so the kept rows keep their relative order |
| `Seqs.FilterCardinality` | script.js:113-114 | the length of a filter is the number of positions whose element is kept |
| `Seqs.FirstIndex` | script.js:377 | `find` by id yields the first position carrying the id, or nothing iff no element carries it |
| `Strings.Trim` | script.js:429-432 | the trimmed text is empty iff the input is all whitespace; otherwise it is the input without its leading and trailing whitespace, and it starts and ends with a non-space |
| `Strings.TrimIdempotent` | script.js:429-432 | trimming twice is trimming once |
| `Strings.ToLower` | script.js:133 | lower-casing keeps the length, maps each character and leaves no upper-case letter |
| `Strings.ContainsTransitive` | script.js:136 | a substring of a substring is a substring |
| `Strings.Contains` | script.js:136 | `includes`: the needle occurs in the text at some position |
| `Strings.Compare` | script.js:538-540 | the string comparison is three-valued and is zero iff the strings are equal |
| `Strings.CompareMeans` | script.js:538-540 | the comparison is negative iff the first string precedes the second in code-point order (a proper prefix, or the smaller code point at the first difference), and positive iff the second precedes the first |
| `Strings.CompareAntisymmetric` | script.js:538-540 | swapping the arguments negates the comparison |
| `Strings.CompareTransitive` | script.js:538-540 | the comparison is transitive |
| `Escape.EscapeChar` | script.js:675-681 | each of `& < > " '` becomes a reference from `&` to `;`; every other character is kept |
| `Escape.EscapeHtml` | script.js:673-682 | the output is at least as long as the input and has none of `< > " '`; text without special characters is returned unchanged |
| `Escape.EscapeValue` | script.js:674 | `null` and `undefined` give the empty string |
| `Escape.EscapeAppend` | script.js:676 | escaping distributes over concatenation, character by character |
| `Escape.UnescapeEscape` | script.js:673-682 | decoding the escaped text restores the input, so no two texts escape alike |
| `Roles.NormalizeText` | script.js:90-94 | the normalised text is no longer than the input and holds only lower-case characters with no diacritic and no combining mark |
| `Roles.Decompose` | script.js:93 | canonical decomposition of one character: a precomposed Latin-1 letter becomes its base letter and its combining mark, from the Unicode decomposition mappings |
| `Roles.Nfd` | script.js:93 | `normalize('NFD')` decomposes the text character by character and never shortens it |
| `Roles.DeleteMarks` | script.js:93 | the replace deletes exactly the combining marks U+0300 to U+036F |
| `Roles.DecomposeBase` | script.js:93 | decomposing a character and deleting its mark leaves the base letter the normalisation uses |
| `Roles.NormalizePipeline` | script.js:90-94 | the normalisation equals the source's pipeline: decompose, delete the marks, lower-case |
| `Roles.NormalizeIgnoresAccents` | script.js:93 | a text and its unaccented spelling normalise alike |
| `Roles.SameSpellingSameBuckets` | script.js:108-109 | two roles spelled alike up to accents and case fall in the same buckets |
| `Roles.BucketsIgnoreAccents` | script.js:108-109 | removing a role's accents changes neither bucket |
| `Roles.NormalizeAppend` | script.js:93 | normalisation works character by character |
| `Roles.NormalizeFixed` | script.js:93 | text made only of characters normalisation can produce is left unchanged |
| `Roles.NormalizePrefixThenFixed` | script.js:93 | a text whose head normalises to some text and whose rest is already normal normalises to that text followed by the rest |
| `Roles.NormalizeIdempotent` | script.js:93 | normalising twice is normalising once |
| `Roles.NormalizeIgnoresCase` | script.js:93 | a role and its lower-case form normalise alike |
| `Roles.IsMed` | script.js:108 | `isMed`: the normalised role contains one of the six doctor fragments |
| `Roles.IsEnf` | script.js:109 | `isEnf`: the normalised role contains "enf" or "enfer" |
| `Roles.IsMedMeans` | script.js:108 | a role is a doctor's iff its normalised text contains "med" or "dr"; the accented fragments can never match |
| `Roles.IsEnfMeans` | script.js:109 | a role is a nurse's iff its normalised text contains "enf" |
| `Schedule.IsTimeOccupied` | script.js:523-529 | the slot is occupied iff some appointment has that date, time and professional |
| `Schedule.DistinctAppend` | script.js:597-612 | appending keeps a professional's slots distinct iff the new appointment is someone else's or its slot was free |
| `Schedule.DistinctCons` | script.js:568 | prepending keeps a professional's slots distinct iff the new appointment is someone else's or its slot is free in the rest |
| `Schedule.DistinctFilter` | script.js:568 | dropping appointments never creates a double booking |
| `Schedule.CancelKeepsDistinct` | script.js:565-573 | cancelling by id keeps every professional's slots distinct |
| `Schedule.DoubleBooking` | script.js:225-228 | appending into an occupied slot without a check, as quick scheduling does, double-books it |
| `Schedule.OccupiedAfterCancel` | script.js:568 | after cancelling an id, a slot is occupied iff an appointment with another id occupied it before |
| `Schedule.CancelFreesSlot` | script.js:565-573 | while slots are distinct, cancelling the appointment in a slot frees that slot |
| `Schedule.Comparator` | script.js:537-541 | the comparator is zero iff date and time are both equal |
| `Schedule.ComparatorAntisymmetric` | script.js:537-541 | swapping two appointments negates the comparator |
| `Schedule.ComparatorTransitive` | script.js:537-541 | the comparator is transitive |
| `Schedule.Insert` | script.js:537-541 | one insertion step adds exactly the new appointment to the multiset |
| `Schedule.InsertSorted` | script.js:537-541 | inserting into a sorted list keeps it sorted |
| `Schedule.SortByDateTime` | script.js:537 | the sorted view is a permutation of the stored appointments, and the stored list is untouched |
| `Schedule.SortSorted` | script.js:537-541 | the sorted view is ordered non-decreasingly by date, then time |
| `Schedule.ComparatorMeans` | script.js:537-541 | an appointment sorts strictly before another iff its date precedes, or the dates are equal and its time precedes |
| `Schedule.SortChronological` | script.js:537-541 | in the sorted view no later entry has an earlier date, nor an earlier time on the same date |
| `Schedule.InsertTied` | script.js:537-541 | one insertion step keeps the order of the appointments tied at a date and time |
| `Schedule.SortStable` | script.js:537-541 | appointments with equal date and time keep their insertion order |
| `Search.Matches` | script.js:135-137 | a patient matches iff its lower-cased name, or its contact as stored, contains the lower-cased filter |
| `Search.FilterPatients` | script.js:133-137 | a patient is listed iff its lower-cased name or its contact contains the lower-cased filter |
| `Search.EmptyFilterKeepsAll` | script.js:130-137 | the default empty filter lists every patient in order |
| `Search.FilterIgnoresCase` | script.js:133 | the case of the filter text does not change the rows |
| `Search.LongerFilterNarrows` | script.js:133-137 | a filter that contains another lists only rows the shorter one lists |
| `Statistics.TechsAsWritten` | script.js:116 | the technician count as written: the staff size less the doctors and the nurses |
| `Statistics.Technicians` | script.js:116 | the technicians are exactly the professionals in neither bucket |
| `Statistics.BucketsCover` | script.js:110-116 | doctors plus nurses plus technicians equal the staff plus those in both buckets |
| `Statistics.TechsAsWrittenMeans` | script.js:116 | the count as written is the technicians less those in both buckets, and it equals the technicians iff no role is in both buckets |
| `Statistics.TechsNegativeWhenBoth` | script.js:116 | one professional in both buckets makes the count as written equal to -1 |
| `Statistics.Classified` | script.js:108-109 | whether a role is a doctor's or a nurse's depends only on its normal form: "med" or "dr" for a doctor, "enf" for a nurse |
| `Statistics.BothText` | script.js:108-109 | a role whose normal form contains "med" and "enf" is both a doctor's and a nurse's |
| `Statistics.DoctorText` | script.js:108-109 | a role whose normal form starts with "med" and has no "f" is a doctor's and not a nurse's |
| `Statistics.NurseText` | script.js:108-109 | a role whose normal form starts with "enf" and has no "d" is a nurse's and not a doctor's |
| `Statistics.NeitherText` | script.js:108-109 | a role whose normal form has neither "d" nor "f" is in neither bucket |
| `Statistics.NurseDoctorRole` | script.js:108-109 | the role "Enf. Médica" is both a doctor's and a nurse's |
| `Statistics.TechsCanBeNegative` | script.js:116 | a staff of one professional with role "Enf. Médica" gives a technician count of -1 as written |
| `Statistics.RenderStats` | script.js:97-116 | the cards show the collection sizes and the bed and supply counters; the doctor, nurse and technician counts are the numbers of professionals whose role is a doctor's, a nurse's, or neither, each bounded by the staff size; the three cover the staff, and the technician count agrees with the source formula when no role is in both buckets |
| `Statistics.DoctorRole` | script.js:16 | "Médica" is a doctor's role and not a nurse's: its accent is dropped before matching |
| `Statistics.NurseRole` | script.js:17 | "Enfermeiro" is a nurse's role and not a doctor's |
| `Statistics.TechnicianRole` | script.js:108-109 | "Técnico" is in neither bucket |
| `Statistics.OneOfEach` | script.js:110-116 | a doctor, a nurse and a technician give one of each on the dashboard, and the count as written agrees |
| `Store.Merge` | script.js:36-47 | a collection changes only when the slot parsed and the snapshot has it, and a present one always replaces; an absent or unparsable slot changes nothing |
| `Store.Payload` | script.js:57-61 | the saved payload carries all three collections |
| `Store.LoadPersisted` | script.js:33-66 | loading what was saved restores every collection, whatever the store held before |
| `Store.MergeIdempotent` | script.js:33-52 | loading the same slot twice is loading it once |
| `Store.HospitalStore.constructor` | script.js:7-23 | the store starts with the sample patients and professionals, no appointments, 34 of 120 beds occupied and 4 critical supplies |
| `Store.HospitalStore.LoadStateFromStorage` | script.js:33-52 | the new collections are the merge of the old ones with the slot; beds and supplies are never loaded |
| `Store.HospitalStore.RegisterPatient` | script.js:295-309 | exactly one patient is appended, with history `[notes]` or `[]` when there are no notes, and nothing else changes |
| `Store.HospitalStore.RegisterProfessional` | script.js:426-447 | the form succeeds iff the trimmed name and role are non-empty; it then appends one professional with trimmed fields, and otherwise nothing changes |
| `Store.HospitalStore.EditProfessional` | script.js:376-414 | reports found iff some professional carries the id; then only the first one's name, role, specialty and contact change, and ids and length stay as they were |
| `Store.HospitalStore.RemoveProfessional` | script.js:361-373 | the professionals are the old ones without the id; removed iff the length changed iff the id was present; no professional keeps the id |
| `Store.HospitalStore.CancelAppointment` | script.js:565-579 | the appointments are the old ones without the id; cancelled iff the length changed iff the id was present; no appointment keeps the id, and no double booking appears |
| `Store.HospitalStore.QuickSchedule` | script.js:220-228 | the form is rejected iff a patient or professional id is zero or the date or time is empty (nothing is trimmed); otherwise one appointment is appended, with no conflict check, and it occupies its slot |
| `Store.HospitalStore.BookTelemedicine` | script.js:582-612 | name, contact and symptoms are trimmed; an empty trimmed name, contact or symptoms, or an empty (untrimmed) date or time, rejects the form; otherwise an occupied slot of professional 3 rejects it; otherwise one appointment with professional 3 and the trimmed fields is appended. The slot is then occupied, and professional 3's slots stay distinct |

## Left out

- DOM rendering, modals, navigation, the camera and microphone call flow, the report modal and the security form stub are not modelled. They hold no logic on the store.
- `alert` is replaced by the methods' result values, and `confirm` is taken as always accepted.
- Storage and JSON are not modelled: `localStorage`, `JSON.parse`, `JSON.stringify` and the `beforeunload` hook. Only the merge over an abstract snapshot and the payload are modelled. A parsed value that is not an object of lists is outside the model.
- The random dashboard figures and the currency formatting are not modelled (`Math.random`, `toLocaleString`).
- Ids from `Date.now()` and dates from `new Date()` are parameters. The model does not claim that ids are fresh or unique.
- `Roles.NormalizeText`: canonical decomposition (NFD, `Roles.Decompose`) is modelled only for the precomposed Latin-1 letters. It also removes the combining marks U+0300 to U+036F. Other scripts and other decomposable characters are left unchanged.
- `Strings.ToLower`: only ASCII and Latin-1 upper-case letters are lower-cased. The full Unicode case mapping is not modelled.
- `Strings.Compare`: `localeCompare` is modelled as code-point order. The zero-padded date and time strings it compares are digits, dashes and colons, which order the same way. The model returns -1, 0 or 1 where the source may return any negative or positive number.
- `Number(...)` is not modelled. Ages, patient ids and professional ids are integers, so a `NaN` never reaches the model. A professional id stored as a string, which `isTimeOccupied` would coerce, is outside the model.
- `escapeHtml` on a non-string, which the source first converts with `String`, is outside the model. Only strings and `null`/`undefined` are modelled.
- A missing professional contact (`undefined` in the sample data) is modelled as the empty string.
- Editing works on the record found when the edit dialog opened. The model finds it again when the form is submitted, which is the same record unless the collection changed in between.
- The global search box's length threshold and the patient and professional selects are view wiring and are not modelled.
- The patient-name lookup of the appointment table is not modelled. It only chooses the text shown in a row.
- The browser's form constraint validation is not modelled: `required` on the new-patient form's name and age (script.js:278-279) and on the edit form's name, role and specialty (script.js:386-395). So `RegisterPatient` and `EditProfessional` accept an empty name, and `EditProfessional` an empty role or specialty, which the browser would not submit.

## Findings

| source | as written | input that shows it | evidently intended | confidence | as-written member | corrected member |
|---|---|---|---|---|---|---|
| script.js:116 | the technician count is the staff size less doctors and nurses, so a professional whose role matches both buckets is subtracted twice | one professional with role "Enf. Médica": docs 1, nurses 1, technicians shown as -1 | the technicians are the professionals in neither bucket | high (proved; not executed) | `Statistics.TechsCanBeNegative` | `Statistics.RenderStats` |
