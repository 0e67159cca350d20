/** The patient search of the patients table: a patient is listed when its
    lower-cased name, or its contact as stored, contains the lower-cased
    filter text. */
module Search {
  import opened Seqs
  import opened Strings
  import opened Records

  /** The row predicate of `renderPatients`. The contact is not lower-cased. */
  predicate Matches(p: Patient, filter: string)
  {
    var f := ToLower(filter);
    Contains(ToLower(p.name), f) || Contains(p.contact, f)
  }

  function MatchesFilter(filter: string): Patient -> bool
  {
    p => Matches(p, filter)
  }

  /** The rows `renderPatients(filter)` lists, in the order of the store. */
  function FilterPatients(patients: seq<Patient>, filter: string): (r: seq<Patient>)
    ensures |r| <= |patients|
    ensures forall p :: p in r <==> p in patients && Matches(p, filter)
  {
    Filter(patients, MatchesFilter(filter))
  }

  /** The empty filter, the default, lists every patient in order. */
  lemma EmptyFilterKeepsAll(patients: seq<Patient>)
    ensures FilterPatients(patients, "") == patients
  {
    forall i | 0 <= i < |patients| ensures MatchesFilter("")(patients[i]) {
      ContainsEmpty(ToLower(patients[i].name));
    }
    FilterLength(patients, MatchesFilter(""));
  }

  /** The case of the filter text does not matter. */
  lemma FilterIgnoresCase(patients: seq<Patient>, filter: string)
    ensures FilterPatients(patients, ToLower(filter)) == FilterPatients(patients, filter)
  {
    ToLowerIdempotent(filter);
    FilterCongruent(patients, MatchesFilter(ToLower(filter)), MatchesFilter(filter));
  }

  /** Typing more narrows the list: a filter that contains another lists
      only patients the shorter one lists. */
  lemma LongerFilterNarrows(patients: seq<Patient>, short: string, long: string)
    requires Contains(ToLower(long), ToLower(short))
    ensures forall p :: p in FilterPatients(patients, long) ==> p in FilterPatients(patients, short)
  {
    forall p | p in FilterPatients(patients, long) ensures Matches(p, short) {
      if Contains(ToLower(p.name), ToLower(long)) {
        ContainsTransitive(ToLower(p.name), ToLower(long), ToLower(short));
      } else {
        ContainsTransitive(p.contact, ToLower(long), ToLower(short));
      }
    }
  }
}
