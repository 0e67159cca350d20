/** Generic sequence operations behind the store's `Array.prototype.filter`
    and `Array.prototype.find` calls, with the facts the store relies on. */
module Seqs {

  datatype Option<+T> = None | Some(value: T)

  /** `s.filter(keep)`: the elements of `s` that satisfy `keep`, in order. */
  function Filter<T(!new)>(s: seq<T>, keep: T -> bool): (r: seq<T>)
    ensures |r| <= |s|
    ensures forall x :: x in r <==> x in s && keep(x)
  {
    if s == [] then []
    else (if keep(s[0]) then [s[0]] else []) + Filter(s[1..], keep)
  }

  /** Filtering distributes over concatenation: the kept elements stay in
      their original relative order. */
  lemma {:induction false} FilterAppend<T(!new)>(a: seq<T>, b: seq<T>, keep: T -> bool)
    ensures Filter(a + b, keep) == Filter(a, keep) + Filter(b, keep)
  {
    if a == [] {
      assert a + b == b;
    } else {
      assert (a + b)[1..] == a[1..] + b;
      FilterAppend(a[1..], b, keep);
    }
  }

  /** Every occurrence of a kept value survives, every other value is gone. */
  lemma {:induction false} FilterCount<T(!new)>(s: seq<T>, keep: T -> bool, x: T)
    ensures multiset(Filter(s, keep))[x] == if keep(x) then multiset(s)[x] else 0
  {
    if s != [] {
      FilterCount(s[1..], keep, x);
      assert s == [s[0]] + s[1..];
    }
  }

  /** The filter returns a sequence as long as its input exactly when no
      element was dropped; otherwise it is strictly shorter. */
  lemma {:induction false} FilterLength<T(!new)>(s: seq<T>, keep: T -> bool)
    ensures |Filter(s, keep)| == |s| <==> forall i :: 0 <= i < |s| ==> keep(s[i])
    ensures (forall i :: 0 <= i < |s| ==> keep(s[i])) ==> Filter(s, keep) == s
  {
    if s != [] {
      FilterLength(s[1..], keep);
      assert forall i :: 1 <= i < |s| ==> s[i] == s[1..][i - 1];
    }
  }

  /** The number of positions whose element satisfies `keep`. */
  function Count<T(!new)>(s: seq<T>, keep: T -> bool): nat
  {
    |set i | 0 <= i < |s| && keep(s[i])|
  }

  /** The length of a filter is the number of positions whose element is
      kept. */
  lemma {:induction false} FilterCardinality<T(!new)>(s: seq<T>, keep: T -> bool)
    ensures |Filter(s, keep)| == Count(s, keep)
  {
    if s != [] {
      var t, x := s[..|s| - 1], s[|s| - 1];
      assert s == t + [x];
      FilterAppend(t, [x], keep);
      assert Filter([x], keep) == if keep(x) then [x] else [];
      FilterCardinality(t, keep);
      var a := set i | 0 <= i < |t| && keep(t[i]);
      var b := set i | 0 <= i < |s| && keep(s[i]);
      var c: set<int> := if keep(x) then {|t|} else {};
      assert b == a + c by {
        forall i ensures i in b <==> i in a + c {
          if 0 <= i < |t| {
            assert s[i] == t[i];
          }
        }
      }
      assert |t| !in a;
      assert a !! c;
    }
  }

  /** Filters whose predicates agree on every element give the same result. */
  lemma {:induction false} FilterCongruent<T(!new)>(s: seq<T>, keep: T -> bool, keep': T -> bool)
    requires forall i :: 0 <= i < |s| ==> keep(s[i]) == keep'(s[i])
    ensures Filter(s, keep) == Filter(s, keep')
  {
    if s != [] {
      assert forall i :: 1 <= i < |s| ==> s[1..][i - 1] == s[i];
      FilterCongruent(s[1..], keep, keep');
    }
  }

  /** The predicate `x => idOf(x) !== id` of the removal filters. */
  function NotId<T>(idOf: T -> int, id: int): T -> bool
  {
    x => idOf(x) != id
  }

  /** `s.filter(x => idOf(x) !== id)`: drops every element carrying `id`,
      keeps the others in order, and signals "nothing matched" by an
      unchanged length. */
  function Without<T(!new)>(s: seq<T>, idOf: T -> int, id: int): (r: seq<T>)
    ensures forall x :: x in r <==> x in s && idOf(x) != id
    ensures forall k :: 0 <= k < |r| ==> idOf(r[k]) != id
    ensures forall x :: multiset(r)[x] == if idOf(x) != id then multiset(s)[x] else 0
    ensures |r| == |s| <==> forall i :: 0 <= i < |s| ==> idOf(s[i]) != id
    ensures (forall i :: 0 <= i < |s| ==> idOf(s[i]) != id) ==> r == s
    ensures |r| < |s| <==> exists i :: 0 <= i < |s| && idOf(s[i]) == id
  {
    var keep := NotId(idOf, id);
    FilterLength(s, keep);
    assert forall x :: multiset(Filter(s, keep))[x] == if idOf(x) != id then multiset(s)[x] else 0 by {
      forall x ensures multiset(Filter(s, keep))[x] == if idOf(x) != id then multiset(s)[x] else 0 {
        FilterCount(s, keep, x);
      }
    }
    Filter(s, keep)
  }

  /** Removal distributes over concatenation: the elements that stay keep
      their original relative order. */
  lemma WithoutAppend<T(!new)>(a: seq<T>, b: seq<T>, idOf: T -> int, id: int)
    ensures Without(a + b, idOf, id) == Without(a, idOf, id) + Without(b, idOf, id)
  {
    FilterAppend(a, b, NotId(idOf, id));
  }

  /** Removal by id where at most one element carries `id` (the uniqueness
      the ids are meant to have) shortens the sequence by at most one. */
  lemma {:induction false} WithoutUnique<T(!new)>(s: seq<T>, idOf: T -> int, id: int)
    requires forall i, j :: 0 <= i < j < |s| && idOf(s[i]) == id ==> idOf(s[j]) != id
    ensures |Without(s, idOf, id)| == |s| - (if exists i :: 0 <= i < |s| && idOf(s[i]) == id then 1 else 0)
  {
    if s != [] {
      var t, keep := s[1..], NotId(idOf, id);
      assert Filter(s, keep) == (if keep(s[0]) then [s[0]] else []) + Filter(t, keep);
      if idOf(s[0]) == id {
        assert forall j :: 0 <= j < |t| ==> keep(t[j]) by {
          forall j | 0 <= j < |t| ensures keep(t[j]) {
            assert t[j] == s[j + 1];
          }
        }
        FilterLength(t, keep);
      } else {
        assert forall i, j :: 0 <= i < j < |t| && idOf(t[i]) == id ==> idOf(t[j]) != id by {
          forall i, j | 0 <= i < j < |t| && idOf(t[i]) == id ensures idOf(t[j]) != id {
            assert t[i] == s[i + 1] && t[j] == s[j + 1];
          }
        }
        WithoutUnique(t, idOf, id);
        assert (exists i :: 0 <= i < |s| && idOf(s[i]) == id) <==> (exists i :: 0 <= i < |t| && idOf(t[i]) == id) by {
          if exists i :: 0 <= i < |s| && idOf(s[i]) == id {
            var i :| 0 <= i < |s| && idOf(s[i]) == id;
            assert t[i - 1] == s[i];
          }
          if exists i :: 0 <= i < |t| && idOf(t[i]) == id {
            var i :| 0 <= i < |t| && idOf(t[i]) == id;
            assert s[i + 1] == t[i];
          }
        }
      }
    }
  }

  /** `s.findIndex(x => idOf(x) === id)`: the position of the FIRST element
      carrying `id`, or None. */
  function FirstIndex<T(!new)>(s: seq<T>, idOf: T -> int, id: int): (r: Option<nat>)
    ensures r.Some? ==> r.value < |s| && idOf(s[r.value]) == id
    ensures r.Some? ==> forall j :: 0 <= j < r.value ==> idOf(s[j]) != id
    ensures r.None? <==> forall j :: 0 <= j < |s| ==> idOf(s[j]) != id
  {
    if s == [] then None
    else if idOf(s[0]) == id then Some(0)
    else match FirstIndex(s[1..], idOf, id)
      case None => None
      case Some(k) => Some(k + 1)
  }
}
