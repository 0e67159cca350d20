/** The dashboard figures of `renderStats`: collection sizes, bed and
    supply counters, and the staff split into doctors, nurses and the
    remaining technicians. */
module Statistics {
  import opened Seqs
  import opened Roles
  import opened Records
  import opened Strings

  predicate IsDoctor(p: Professional) { IsMed(p.role) }

  predicate IsNurse(p: Professional) { IsEnf(p.role) }

  /** A professional whose role matches neither bucket. */
  predicate IsTechnician(p: Professional) { !IsMed(p.role) && !IsEnf(p.role) }

  /** A professional whose role matches both buckets, e.g. "Enfermeira médica". */
  predicate IsDoctorAndNurse(p: Professional) { IsMed(p.role) && IsEnf(p.role) }

  /** `countTechs` as written: the staff size less doctors and nurses. A
      professional in both buckets is subtracted twice. */
  function TechsAsWritten(professionals: seq<Professional>): int
  {
    |professionals| - (|Filter(professionals, IsDoctor)| + |Filter(professionals, IsNurse)|)
  }

  /** The technicians: the professionals in neither bucket. */
  function Technicians(professionals: seq<Professional>): (r: seq<Professional>)
    ensures |r| <= |professionals|
    ensures forall p :: p in r <==> p in professionals && !IsMed(p.role) && !IsEnf(p.role)
  {
    Filter(professionals, IsTechnician)
  }

  /** Every professional is counted once as doctor, nurse or technician,
      except those in both buckets, who are counted twice. */
  lemma {:induction false} BucketsCover(ps: seq<Professional>)
    ensures |Filter(ps, IsDoctor)| + |Filter(ps, IsNurse)| + |Technicians(ps)|
            == |ps| + |Filter(ps, IsDoctorAndNurse)|
  {
    if ps != [] {
      BucketsCover(ps[1..]);
    }
  }

  /** The technician count as written equals the professionals in neither
      bucket exactly when no role falls in both buckets; otherwise it is
      smaller. */
  lemma TechsAsWrittenMeans(ps: seq<Professional>)
    ensures TechsAsWritten(ps) == |Technicians(ps)| - |Filter(ps, IsDoctorAndNurse)|
    ensures TechsAsWritten(ps) == |Technicians(ps)| <==> forall i :: 0 <= i < |ps| ==> !IsDoctorAndNurse(ps[i])
  {
    BucketsCover(ps);
    if exists i :: 0 <= i < |ps| && IsDoctorAndNurse(ps[i]) {
      var i :| 0 <= i < |ps| && IsDoctorAndNurse(ps[i]);
      assert ps[i] in Filter(ps, IsDoctorAndNurse);
    } else {
      FilterLength(ps, (p: Professional) => !IsDoctorAndNurse(p));
      if Filter(ps, IsDoctorAndNurse) != [] {
        assert Filter(ps, IsDoctorAndNurse)[0] in ps;
      }
    }
  }

  /** One professional whose role falls in both buckets is subtracted
      twice: the technician count as written drops below zero. */
  lemma TechsNegativeWhenBoth(p: Professional)
    requires IsDoctorAndNurse(p)
    ensures TechsAsWritten([p]) == -1
  {
    assert Filter([p], IsDoctor) == [p];
    assert Filter([p], IsNurse) == [p];
  }

  /** Classification reads only the normalised role. */
  lemma Classified(role: string, n: string)
    requires NormalizeText(role) == n
    ensures IsMed(role) <==> Contains(n, "med") || Contains(n, "dr")
    ensures IsEnf(role) <==> Contains(n, "enf")
  {
    IsMedMeans(role);
    IsEnfMeans(role);
  }

  /** A role whose normal form contains "med" and "enf" is in both buckets. */
  lemma BothText(role: string, n: string)
    requires NormalizeText(role) == n && Contains(n, "med") && Contains(n, "enf")
    ensures IsMed(role) && IsEnf(role)
  {
    Classified(role, n);
  }

  /** A role whose normal form starts with "med" and has no 'f' is a
      doctor's role only. */
  lemma DoctorText(role: string, n: string)
    requires NormalizeText(role) == n && "med" <= n && 'f' !in n
    ensures IsMed(role) && !IsEnf(role)
  {
    Classified(role, n);
    assert "med" <= n[0..];
    Lacks(n, "enf", 'f');
  }

  /** A role whose normal form starts with "enf" and has no 'd' is a
      nurse's role only. */
  lemma NurseText(role: string, n: string)
    requires NormalizeText(role) == n && "enf" <= n && 'd' !in n
    ensures IsEnf(role) && !IsMed(role)
  {
    Classified(role, n);
    assert "enf" <= n[0..];
    Lacks(n, "med", 'd');
    Lacks(n, "dr", 'd');
  }

  /** A role whose normal form has neither 'd' nor 'f' is in neither
      bucket. */
  lemma NeitherText(role: string, n: string)
    requires NormalizeText(role) == n && 'd' !in n && 'f' !in n
    ensures !IsMed(role) && !IsEnf(role)
  {
    Classified(role, n);
    Lacks(n, "med", 'd');
    Lacks(n, "dr", 'd');
    Lacks(n, "enf", 'f');
  }

  /** The role "Enf. Médica" is in both buckets. */
  lemma NurseDoctorRole(role: string)
    requires role == "Enf. M\U{E9}dica"
    ensures IsMed(role) && IsEnf(role)
  {
    assert role[..7] == "Enf. M\U{E9}";
    assert NormalizeText("Enf. M\U{E9}") == "enf. me";
    NormalizePrefixThenFixed(role, 7, "enf. me");
    var n := NormalizeText(role);
    assert "med" <= n[5..] && "enf" <= n[0..];
    BothText(role, n);
  }

  /** A concrete staff whose technician count as written is negative. */
  lemma TechsCanBeNegative(p: Professional)
    requires p.role == "Enf. M\U{E9}dica"
    ensures TechsAsWritten([p]) == -1
  {
    NurseDoctorRole(p.role);
    TechsNegativeWhenBoth(p);
  }

  /** The dashboard cards. */
  datatype Dashboard = Dashboard(
    patients: nat, appointments: nat, bedsOccupied: nat, bedsTotal: nat,
    criticalSupplies: nat, docs: nat, nurses: nat, techs: nat)

  /** `renderStats`, with the technicians counted as the professionals in
      neither bucket. */
  function RenderStats(patients: seq<Patient>, professionals: seq<Professional>,
                       appointments: seq<Appointment>, beds: Beds, supplies: Supplies): (d: Dashboard)
    ensures d.patients == |patients| && d.appointments == |appointments|
    ensures d.bedsOccupied == beds.occupied && d.bedsTotal == beds.total
    ensures d.criticalSupplies == supplies.critical
    ensures d.docs <= |professionals| && d.nurses <= |professionals| && d.techs <= |professionals|
    ensures d.docs + d.nurses + d.techs >= |professionals|
    ensures (forall i :: 0 <= i < |professionals| ==> !IsDoctorAndNurse(professionals[i])) ==>
              d.techs == |professionals| - (d.docs + d.nurses)
    ensures d.docs == Count(professionals, IsDoctor)
    ensures d.nurses == Count(professionals, IsNurse)
    ensures d.techs == Count(professionals, IsTechnician)
  {
    TechsAsWrittenMeans(professionals);
    FilterCardinality(professionals, IsDoctor);
    FilterCardinality(professionals, IsNurse);
    FilterCardinality(professionals, IsTechnician);
    Dashboard(|patients|, |appointments|, beds.occupied, beds.total, supplies.critical,
              |Filter(professionals, IsDoctor)|, |Filter(professionals, IsNurse)|,
              |Technicians(professionals)|)
  }

  /** "Médica" is a doctor's role only; its accent is dropped. */
  lemma DoctorRole(role: string)
    requires role == "M\U{E9}dica"
    ensures IsMed(role) && !IsEnf(role)
  {
    assert role[..2] == "M\U{E9}";
    assert NormalizeText("M\U{E9}") == "me";
    NormalizePrefixThenFixed(role, 2, "me");
    var n := NormalizeText(role);
    assert "med" <= n && 'f' !in n;
    DoctorText(role, n);
  }

  /** "Enfermeiro" is a nurse's role only. */
  lemma NurseRole(role: string)
    requires role == "Enfermeiro"
    ensures IsEnf(role) && !IsMed(role)
  {
    assert role[..1] == "E";
    assert NormalizeText("E") == "e";
    NormalizePrefixThenFixed(role, 1, "e");
    var n := NormalizeText(role);
    assert "enf" <= n && 'd' !in n;
    NurseText(role, n);
  }

  /** "Técnico" is in neither bucket. */
  lemma TechnicianRole(role: string)
    requires role == "T\U{E9}cnico"
    ensures !IsMed(role) && !IsEnf(role)
  {
    assert role[..2] == "T\U{E9}";
    assert NormalizeText("T\U{E9}") == "te";
    NormalizePrefixThenFixed(role, 2, "te");
    var n := NormalizeText(role);
    assert 'd' !in n && 'f' !in n;
    NeitherText(role, n);
  }

  /** A doctor, a nurse and a technician give one of each on the dashboard,
      and the count as written agrees. */
  lemma OneOfEach(a: Professional, b: Professional, c: Professional)
    requires a.role == "M\U{E9}dica" && b.role == "Enfermeiro" && c.role == "T\U{E9}cnico"
    ensures var d := RenderStats([], [a, b, c], [], SampleBeds, SampleSupplies);
            d.docs == 1 && d.nurses == 1 && d.techs == 1 && TechsAsWritten([a, b, c]) == 1
  {
    DoctorRole(a.role);
    NurseRole(b.role);
    TechnicianRole(c.role);
    FilterThree(a, b, c, IsDoctor);
    FilterThree(a, b, c, IsNurse);
    FilterThree(a, b, c, IsTechnician);
  }

  /** Filtering a three-element list, spelled out. */
  lemma FilterThree<T(!new)>(a: T, b: T, c: T, keep: T -> bool)
    ensures Filter([a, b, c], keep) ==
            (if keep(a) then [a] else []) + (if keep(b) then [b] else []) + (if keep(c) then [c] else [])
  {
    assert [a, b, c][1..] == [b, c] && [b, c][1..] == [c] && [c][1..] == [];
    assert Filter([c], keep) == (if keep(c) then [c] else []);
    assert Filter([b, c], keep) == (if keep(b) then [b] else []) + Filter([c], keep);
    assert Filter([a, b, c], keep) == (if keep(a) then [a] else []) + Filter([b, c], keep);
  }

  /** A text without some character of the needle does not contain it. */
  lemma Lacks(s: string, t: string, c: char)
    requires c in t && c !in s
    ensures !Contains(s, t)
  {
    if Contains(s, t) { ContainsChar(s, t, c); }
  }
}
