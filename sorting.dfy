/** `github.sort`: an object's entries as [key, count] pairs, sorted ascending by count. */
module Sorting {

  /** One pair of a key and its value. */
  type Entry = (string, int)

  /** Counts never decrease along the sequence. */
  predicate SortedByCount(s: seq<Entry>)
  {
    forall i, j :: 0 <= i < j < |s| ==> s[i].1 <= s[j].1
  }

  /** No element occurs twice. */
  predicate NoRepeats(s: seq<Entry>)
  {
    forall i, j :: 0 <= i < j < |s| ==> s[i] != s[j]
  }

  /** A sequence has no repeated element exactly when its multiset holds each element at most once. */
  lemma {:induction false} NoRepeatsCount(s: seq<Entry>)
    ensures NoRepeats(s) <==> forall e :: multiset(s)[e] <= 1
  {
    if s != [] {
      var init, x := s[..|s| - 1], s[|s| - 1];
      NoRepeatsCount(init);
      assert s == init + [x];
      assert multiset(s) == multiset(init) + multiset{x};
      if NoRepeats(s) {
        assert NoRepeats(init) by {
          forall i, j | 0 <= i < j < |init| ensures init[i] != init[j] {
            assert init[i] == s[i] && init[j] == s[j];
          }
        }
        assert x !in init by {
          forall i | 0 <= i < |init| ensures init[i] != x {
            assert init[i] == s[i];
          }
        }
      } else {
        var i, j :| 0 <= i < j < |s| && s[i] == s[j];
        if j < |s| - 1 {
          assert init[i] == init[j];
          assert !NoRepeats(init);
          var e :| multiset(init)[e] > 1;
          assert multiset(s)[e] > 1;
        } else {
          assert init[i] == x;
          assert multiset(s)[x] >= 2;
        }
      }
    }
  }

  /** Exchanges two elements of the array and nothing else. */
  method Swap(a: array<Entry>, i: nat, j: nat)
    requires i < a.Length && j < a.Length
    modifies a
    ensures a[i] == old(a[j]) && a[j] == old(a[i])
    ensures forall k :: 0 <= k < a.Length && k != i && k != j ==> a[k] == old(a[k])
    ensures multiset(a[..]) == multiset(old(a[..]))
  {
    a[i], a[j] := a[j], a[i];
  }

  /**
   * The in-place sort of the pairs, with a comparator that subtracts counts: ascending by count.
   * An insertion sort; sortedness and permutation are what is stated, not the order of equal counts.
   */
  method SortByCount(a: array<Entry>)
    modifies a
    ensures SortedByCount(a[..])
    ensures multiset(a[..]) == multiset(old(a[..]))
  {
    var i := 0;
    while i < a.Length
      invariant 0 <= i <= a.Length
      invariant SortedByCount(a[..i])
      invariant multiset(a[..]) == multiset(old(a[..]))
    {
      var j := i;
      while j > 0 && a[j - 1].1 > a[j].1
        invariant 0 <= j <= i
        invariant forall k, l :: 0 <= k < l <= i && k != j && l != j ==> a[k].1 <= a[l].1
        invariant forall l :: j < l <= i ==> a[j].1 < a[l].1
        invariant multiset(a[..]) == multiset(old(a[..]))
      {
        Swap(a, j - 1, j);
        j := j - 1;
      }
      i := i + 1;
    }
  }

  /**
   * `sort(object)`: pushes one pair per key, in enumeration order (left unspecified here),
   * then sorts the pairs by count. The result holds every entry of the object once and is sorted.
   */
  method Sort(entries: map<string, int>) returns (sortable: seq<Entry>)
    ensures SortedByCount(sortable)
    ensures |sortable| == |entries|
    ensures forall e :: e in sortable <==> e.0 in entries && entries[e.0] == e.1
    ensures forall i, j :: 0 <= i < j < |sortable| ==> sortable[i].0 != sortable[j].0
  {
    var pushed: seq<Entry> := [];
    var remaining := entries.Keys;
    while remaining != {}
      invariant remaining <= entries.Keys
      invariant |pushed| + |remaining| == |entries|
      invariant forall e :: e in pushed <==> e.0 in entries && e.0 !in remaining && entries[e.0] == e.1
      invariant NoRepeats(pushed)
      decreases |remaining|
    {
      var key :| key in remaining;
      pushed := pushed + [(key, entries[key])];
      remaining := remaining - {key};
    }
    var a := new Entry[|pushed|](i requires 0 <= i < |pushed| => pushed[i]);
    assert a[..] == pushed;
    SortByCount(a);
    sortable := a[..];
    assert forall e :: e in sortable <==> e in multiset(pushed);
    NoRepeatsCount(pushed);
    NoRepeatsCount(sortable);
  }
}
