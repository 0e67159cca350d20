/** Scheduling logic: the slot-conflict check `isTimeOccupied` and the
    date-then-time ordering of the telemedicine appointment list. */
module Schedule {
  import opened Seqs
  import opened Strings
  import opened Records

  /** Appointment `a` takes professional `profId`'s slot at `date`, `time`. */
  predicate InSlot(a: Appointment, date: string, time: string, profId: int)
  {
    a.date == date && a.time == time && a.prof == profId
  }

  /** `isTimeOccupied(date, time, profId)`: some appointment takes that slot. */
  function IsTimeOccupied(appts: seq<Appointment>, date: string, time: string, profId: int): (r: bool)
    ensures r <==> exists i :: 0 <= i < |appts| && InSlot(appts[i], date, time, profId)
  {
    if appts == [] then false
    else InSlot(appts[0], date, time, profId) || IsTimeOccupied(appts[1..], date, time, profId)
  }

  /** No two appointments of professional `profId` share a date and time. */
  predicate SlotsDistinct(appts: seq<Appointment>, profId: int)
  {
    forall i, j :: 0 <= i < j < |appts| && appts[i].prof == profId ==>
      !InSlot(appts[j], appts[i].date, appts[i].time, profId)
  }

  /** Appending keeps the slots of `profId` distinct exactly when the new
      appointment is someone else's or takes a free slot. */
  lemma DistinctAppend(appts: seq<Appointment>, x: Appointment, profId: int)
    ensures SlotsDistinct(appts + [x], profId) <==>
            SlotsDistinct(appts, profId) && (x.prof == profId ==> !IsTimeOccupied(appts, x.date, x.time, profId))
  {
    var s := appts + [x];
    assert forall i :: 0 <= i < |appts| ==> s[i] == appts[i];
    assert s[|appts|] == x;
    if !SlotsDistinct(s, profId) {
      var i, j :| 0 <= i < j < |s| && s[i].prof == profId && InSlot(s[j], s[i].date, s[i].time, profId);
      if j == |appts| {
        assert InSlot(appts[i], x.date, x.time, profId);
      }
    }
  }

  /** Prepending keeps the slots of `profId` distinct exactly when the new
      appointment is someone else's or takes a slot free in the rest. */
  lemma DistinctCons(x: Appointment, t: seq<Appointment>, profId: int)
    ensures SlotsDistinct([x] + t, profId) <==>
            SlotsDistinct(t, profId) && (x.prof == profId ==> !IsTimeOccupied(t, x.date, x.time, profId))
  {
    if SlotsDistinct([x] + t, profId) {
      DistinctConsRest(x, t, profId);
    } else if SlotsDistinct(t, profId) && (x.prof == profId ==> !IsTimeOccupied(t, x.date, x.time, profId)) {
      DistinctConsBuild(x, t, profId);
    }
  }

  lemma DistinctConsBuild(x: Appointment, t: seq<Appointment>, profId: int)
    requires SlotsDistinct(t, profId)
    requires x.prof == profId ==> !IsTimeOccupied(t, x.date, x.time, profId)
    ensures SlotsDistinct([x] + t, profId)
  {
    var s := [x] + t;
    forall i, j | 0 <= i < j < |s| && s[i].prof == profId
      ensures !InSlot(s[j], s[i].date, s[i].time, profId)
    {
      if i == 0 {
        assert s[0] == x && s[j] == t[j - 1];
      } else {
        assert s[i] == t[i - 1] && s[j] == t[j - 1];
      }
    }
  }

  lemma DistinctConsRest(x: Appointment, t: seq<Appointment>, profId: int)
    requires SlotsDistinct([x] + t, profId)
    ensures SlotsDistinct(t, profId)
    ensures x.prof == profId ==> !IsTimeOccupied(t, x.date, x.time, profId)
  {
    var s := [x] + t;
    forall i, j | 0 <= i < j < |t| && t[i].prof == profId
      ensures !InSlot(t[j], t[i].date, t[i].time, profId)
    {
      assert s[i + 1] == t[i] && s[j + 1] == t[j];
    }
    if x.prof == profId {
      forall k | 0 <= k < |t| ensures !InSlot(t[k], x.date, x.time, profId) {
        assert s[0] == x && s[k + 1] == t[k];
      }
    }
  }

  /** Dropping appointments, as cancelling does, never creates a conflict. */
  lemma {:induction false} DistinctFilter(s: seq<Appointment>, keep: Appointment -> bool, profId: int)
    requires SlotsDistinct(s, profId)
    ensures SlotsDistinct(Filter(s, keep), profId)
  {
    if s != [] {
      var t := s[1..];
      assert s == [s[0]] + t;
      DistinctCons(s[0], t, profId);
      DistinctFilter(t, keep, profId);
      if keep(s[0]) {
        var x, r := s[0], Filter(t, keep);
        if x.prof == profId {
          forall k | 0 <= k < |r| ensures !InSlot(r[k], x.date, x.time, profId) {
            assert r[k] in t;
          }
        }
        DistinctCons(x, r, profId);
      }
    }
  }

  /** Cancelling by id keeps the slots of every professional distinct. */
  lemma CancelKeepsDistinct(appts: seq<Appointment>, id: int, profId: int)
    requires SlotsDistinct(appts, profId)
    ensures SlotsDistinct(Without(appts, AppointmentId, id), profId)
  {
    DistinctFilter(appts, NotId(AppointmentId, id), profId);
  }

  /** Booking a taken slot without checking, as quick scheduling does,
      double-books it. */
  lemma DoubleBooking(appts: seq<Appointment>, x: Appointment)
    requires IsTimeOccupied(appts, x.date, x.time, x.prof)
    ensures !SlotsDistinct(appts + [x], x.prof)
  {
    DistinctAppend(appts, x, x.prof);
  }

  /** After cancelling by id, a slot is taken exactly when an appointment
      with another id took it before. */
  lemma OccupiedAfterCancel(appts: seq<Appointment>, id: int, date: string, time: string, profId: int)
    ensures IsTimeOccupied(Without(appts, AppointmentId, id), date, time, profId) <==>
            exists i :: 0 <= i < |appts| && appts[i].id != id && InSlot(appts[i], date, time, profId)
  {
    var r := Without(appts, AppointmentId, id);
    if IsTimeOccupied(r, date, time, profId) {
      var k :| 0 <= k < |r| && InSlot(r[k], date, time, profId);
      assert r[k] in appts;
      var i :| 0 <= i < |appts| && appts[i] == r[k];
    }
    if exists i :: 0 <= i < |appts| && appts[i].id != id && InSlot(appts[i], date, time, profId) {
      var i :| 0 <= i < |appts| && appts[i].id != id && InSlot(appts[i], date, time, profId);
      assert appts[i] in r;
    }
  }

  /** While slots are distinct, cancelling the appointment in a slot frees
      that slot. */
  lemma CancelFreesSlot(appts: seq<Appointment>, i: int)
    requires 0 <= i < |appts| && SlotsDistinct(appts, appts[i].prof)
    ensures !IsTimeOccupied(Without(appts, AppointmentId, appts[i].id), appts[i].date, appts[i].time, appts[i].prof)
  {
    var a := appts[i];
    OccupiedAfterCancel(appts, a.id, a.date, a.time, a.prof);
    forall j | 0 <= j < |appts| && appts[j].id != a.id
      ensures !InSlot(appts[j], a.date, a.time, a.prof)
    {
      assert j != i;
    }
  }

  // ------------------------------------------------------------- ordering

  /** The sort comparator: by date, then by time. */
  function Comparator(a: Appointment, b: Appointment): (r: int)
    ensures r == 0 <==> a.date == b.date && a.time == b.time
  {
    var d := Compare(a.date, b.date);
    if d != 0 then d else Compare(a.time, b.time)
  }

  lemma ComparatorAntisymmetric(a: Appointment, b: Appointment)
    ensures Comparator(a, b) == -Comparator(b, a)
  {
    CompareAntisymmetric(a.date, b.date);
    CompareAntisymmetric(a.time, b.time);
  }

  lemma ComparatorTransitive(a: Appointment, b: Appointment, c: Appointment)
    requires Comparator(a, b) <= 0 && Comparator(b, c) <= 0
    ensures Comparator(a, c) <= 0
  {
    CompareTransitive(a.date, b.date, c.date);
    if Compare(a.date, c.date) == 0 {
      CompareAntisymmetric(a.date, b.date);
      CompareAntisymmetric(b.date, c.date);
      CompareTransitive(b.date, c.date, a.date);
      CompareTransitive(c.date, a.date, b.date);
      CompareTransitive(a.time, b.time, c.time);
    }
  }

  /** `a` sorts strictly before `b` exactly when its date precedes, or the
      dates are equal and its time precedes. */
  lemma ComparatorMeans(a: Appointment, b: Appointment)
    ensures Comparator(a, b) < 0 <==>
              Precedes(a.date, b.date) || (a.date == b.date && Precedes(a.time, b.time))
  {
    CompareMeans(a.date, b.date);
    CompareMeans(a.time, b.time);
  }

  predicate Sorted(s: seq<Appointment>)
  {
    forall i, j :: 0 <= i < j < |s| ==> Comparator(s[i], s[j]) <= 0
  }

  /** Places `x` before the first appointment not earlier than it. */
  function Insert(x: Appointment, s: seq<Appointment>): (r: seq<Appointment>)
    ensures multiset(r) == multiset(s) + multiset{x}
  {
    if s == [] || Comparator(x, s[0]) <= 0 then [x] + s
    else
      assert s == [s[0]] + s[1..];
      [s[0]] + Insert(x, s[1..])
  }

  /** The appointment list in the order the telemedicine table shows it:
      `appointments.slice().sort(...)`. */
  function SortByDateTime(s: seq<Appointment>): (r: seq<Appointment>)
    ensures multiset(r) == multiset(s)
  {
    if s == [] then []
    else
      assert s == [s[0]] + s[1..];
      Insert(s[0], SortByDateTime(s[1..]))
  }

  lemma {:induction false} InsertSorted(x: Appointment, s: seq<Appointment>)
    requires Sorted(s)
    ensures Sorted(Insert(x, s))
  {
    if s != [] {
      if Comparator(x, s[0]) <= 0 {
        forall j | 0 <= j < |s| ensures Comparator(x, s[j]) <= 0 {
          if j > 0 { ComparatorTransitive(x, s[0], s[j]); }
        }
        assert forall j :: 0 < j <= |s| ==> Insert(x, s)[j] == s[j - 1];
      } else {
        var t := Insert(x, s[1..]);
        InsertSorted(x, s[1..]);
        ComparatorAntisymmetric(x, s[0]);
        forall y | y in t ensures Comparator(s[0], y) <= 0 {
          assert y in multiset(t);
          if y != x {
            assert y in s[1..];
          }
        }
      }
    }
  }

  /** The sorted view is ordered non-decreasingly by date, then by time. */
  lemma {:induction false} SortSorted(s: seq<Appointment>)
    ensures Sorted(SortByDateTime(s))
  {
    if s != [] {
      SortSorted(s[1..]);
      InsertSorted(s[0], SortByDateTime(s[1..]));
    }
  }

  /** In the sorted view no appointment comes after a later one: its date
      never precedes an earlier entry's date, and on the same date its time
      never precedes. */
  lemma SortChronological(s: seq<Appointment>, i: int, j: int)
    requires 0 <= i < j < |SortByDateTime(s)|
    ensures var r := SortByDateTime(s);
            !Precedes(r[j].date, r[i].date) &&
            (r[j].date == r[i].date ==> !Precedes(r[j].time, r[i].time))
  {
    var r := SortByDateTime(s);
    SortSorted(s);
    ComparatorAntisymmetric(r[i], r[j]);
    ComparatorMeans(r[j], r[i]);
  }

  /** The keep-predicate of the appointments at one date and time. */
  function AtDateTime(date: string, time: string): Appointment -> bool
  {
    (a: Appointment) => a.date == date && a.time == time
  }

  /** The appointments at one date and time, in order. */
  function Tied(s: seq<Appointment>, date: string, time: string): seq<Appointment>
  {
    Filter(s, AtDateTime(date, time))
  }

  lemma TiedCons(y: Appointment, t: seq<Appointment>, date: string, time: string)
    ensures Tied([y] + t, date, time) ==
            (if y.date == date && y.time == time then [y] else []) + Tied(t, date, time)
  {
    assert ([y] + t)[1..] == t;
  }

  lemma {:induction false} InsertTied(x: Appointment, s: seq<Appointment>, date: string, time: string)
    ensures Tied(Insert(x, s), date, time) ==
            (if x.date == date && x.time == time then [x] else []) + Tied(s, date, time)
  {
    if s == [] || Comparator(x, s[0]) <= 0 {
      TiedCons(x, s, date, time);
    } else {
      var y, t := s[0], s[1..];
      var here := if x.date == date && x.time == time then [x] else [];
      var there := if y.date == date && y.time == time then [y] else [];
      assert s == [y] + t;
      assert Insert(x, s) == [y] + Insert(x, t);
      calc {
        Tied(Insert(x, s), date, time);
        { TiedCons(y, Insert(x, t), date, time); }
        there + Tied(Insert(x, t), date, time);
        { InsertTied(x, t, date, time); }
        there + (here + Tied(t, date, time));
        { TiedCons(y, t, date, time); }
        here + Tied(s, date, time);
      }
    }
  }

  /** Stability: appointments at the same date and time keep their
      insertion order in the sorted view. */
  lemma {:induction false} SortStable(s: seq<Appointment>, date: string, time: string)
    ensures Tied(SortByDateTime(s), date, time) == Tied(s, date, time)
  {
    if s != [] {
      var x, t := s[0], s[1..];
      var here := if x.date == date && x.time == time then [x] else [];
      assert s == [x] + t;
      calc {
        Tied(SortByDateTime(s), date, time);
        Tied(Insert(x, SortByDateTime(t)), date, time);
        { InsertTied(x, SortByDateTime(t), date, time); }
        here + Tied(SortByDateTime(t), date, time);
        { SortStable(t, date, time); }
        here + Tied(t, date, time);
        { TiedCons(x, t, date, time); }
        Tied(s, date, time);
      }
    }
  }
}
