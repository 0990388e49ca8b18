/** Go's `sort.Strings` and the order it sorts by. */
module Sorting {

  // ---------- the order ----------

  /** Lexicographic order on the characters. */
  predicate Leq(a: string, b: string) {
    a == "" || (b != "" && (a[0] < b[0] || (a[0] == b[0] && Leq(a[1..], b[1..]))))
  }

  predicate Less(a: string, b: string) {
    Leq(a, b) && a != b
  }

  lemma LeqReflexive(a: string)
    ensures Leq(a, a)
  {}

  lemma LeqTotal(a: string, b: string)
    ensures Leq(a, b) || Leq(b, a)
  {}

  lemma {:induction false} LeqAntisymmetric(a: string, b: string)
    requires Leq(a, b) && Leq(b, a)
    ensures a == b
  {
    if a != "" && b != "" {
      LeqAntisymmetric(a[1..], b[1..]);
      assert a == [a[0]] + a[1..] && b == [b[0]] + b[1..];
    }
  }

  lemma LeqTransitive(a: string, b: string, c: string)
    requires Leq(a, b) && Leq(b, c)
    ensures Leq(a, c)
  {}

  /** One text stands before another at position k: they agree up to there, where the first ends or has the
      smaller character. */
  predicate Precedes(a: string, b: string, k: nat) {
    && k <= |a| && k <= |b| && a[..k] == b[..k]
    && (k == |a| || (k < |b| && a[k] < b[k]))
  }

  /** The order is that of a dictionary, by the codes of the characters. */
  lemma {:induction false} LeqIff(a: string, b: string)
    ensures Leq(a, b) <==> exists k: nat :: Precedes(a, b, k)
    ensures Less(a, b) <==> (exists k: nat :: Precedes(a, b, k)) && a != b
  {
    if a == "" {
      assert Precedes(a, b, 0);
    } else if b != "" {
      if a[0] < b[0] {
        assert Precedes(a, b, 0);
      } else if a[0] == b[0] {
        LeqIff(a[1..], b[1..]);
        if k: nat :| Precedes(a[1..], b[1..], k) {
          PrecedesNext(a, b, k);
        }
        if k: nat :| Precedes(a, b, k) {
          PrecedesNext(a, b, k - 1);
        }
      } else {
        forall k: nat ensures !Precedes(a, b, k) {
          assert 0 < k <= |a| && k <= |b| ==> a[..k][0] == a[0] && b[..k][0] == b[0];
        }
      }
    }
  }

  lemma PrecedesNext(a: string, b: string, k: nat)
    requires a != "" && b != "" && a[0] == b[0]
    ensures Precedes(a, b, k + 1) <==> Precedes(a[1..], b[1..], k)
  {
    if k < |a| && k < |b| {
      assert a[..k + 1] == [a[0]] + a[1..][..k] && b[..k + 1] == [b[0]] + b[1..][..k];
      assert a[..k + 1] == b[..k + 1] <==> a[1..][..k] == b[1..][..k];
    }
  }

  ghost predicate IsSorted(s: seq<string>) {
    forall i, j | 0 <= i < j < |s| :: Leq(s[i], s[j])
  }

  // ---------- sorting ----------

  function Insert(x: string, s: seq<string>): (r: seq<string>)
    ensures multiset(r) == multiset{x} + multiset(s)
  {
    if s == [] || Leq(x, s[0]) then [x] + s
    else
      assert s == [s[0]] + s[1..];
      [s[0]] + Insert(x, s[1..])
  }

  function Sort(s: seq<string>): (r: seq<string>)
    ensures multiset(r) == multiset(s)
    ensures |r| == |s|
  {
    if s == [] then []
    else
      assert s == [s[0]] + s[1..];
      var r := Insert(s[0], Sort(s[1..]));
      assert |multiset(r)| == |multiset(s)|;
      r
  }

  lemma {:induction false} InsertSorted(x: string, s: seq<string>)
    requires IsSorted(s)
    ensures IsSorted(Insert(x, s))
  {
    if s != [] && !Leq(x, s[0]) {
      InsertSorted(x, s[1..]);
      var t := Insert(x, s[1..]);
      LeqTotal(x, s[0]);
      forall k | 0 <= k < |t| ensures Leq(s[0], t[k]) {
        assert t[k] in multiset(t);
        assert t[k] == x || t[k] in s[1..];
      }
    } else if s != [] {
      forall k | 0 <= k < |s| ensures Leq(x, s[k]) {
        if k > 0 {
          LeqTransitive(x, s[0], s[k]);
        }
      }
    }
  }

  lemma {:induction false} SortSorts(s: seq<string>)
    ensures IsSorted(Sort(s))
  {
    if s != [] {
      SortSorts(s[1..]);
      InsertSorted(s[0], Sort(s[1..]));
    }
  }

  /** The least text comes first. */
  lemma HeadIsLeast(a: seq<string>, x: string)
    requires IsSorted(a) && x in multiset(a)
    ensures a != [] && Leq(a[0], x)
  {
    assert x in a;
    var i :| 0 <= i < |a| && a[i] == x;
    LeqReflexive(x);
  }

  lemma TailCounts(s: seq<string>)
    requires s != []
    ensures multiset(s[1..]) == multiset(s) - multiset{s[0]}
  {
    assert s == [s[0]] + s[1..];
  }

  /** A sorted arrangement of given texts is unique. */
  lemma {:induction false} SortedUnique(a: seq<string>, b: seq<string>)
    requires IsSorted(a) && IsSorted(b) && multiset(a) == multiset(b)
    ensures a == b
  {
    if a == [] {
      assert |multiset(b)| == 0;
    } else {
      assert a[0] in multiset(a);
      HeadIsLeast(b, a[0]);
      assert b[0] in multiset(b);
      HeadIsLeast(a, b[0]);
      LeqAntisymmetric(a[0], b[0]);
      TailCounts(a);
      TailCounts(b);
      SortedUnique(a[1..], b[1..]);
      assert a == [a[0]] + a[1..] && b == [b[0]] + b[1..];
    }
  }

  /** Two lists sort to the same list exactly when they hold the same texts equally often. */
  lemma SortEqualIff(a: seq<string>, b: seq<string>)
    ensures Sort(a) == Sort(b) <==> multiset(a) == multiset(b)
  {
    if multiset(a) == multiset(b) {
      SortSorts(a);
      SortSorts(b);
      SortedUnique(Sort(a), Sort(b));
    }
  }

  lemma SortOfSorted(a: seq<string>)
    requires IsSorted(a)
    ensures Sort(a) == a
  {
    SortSorts(a);
    SortedUnique(Sort(a), a);
  }

  /** `sort.Strings`, in place. */
  method SortStrings(a: array<string>)
    modifies a
    ensures a[..] == Sort(old(a[..]))
  {
    var sorted := Sort(a[..]);
    for i := 0 to a.Length
      invariant a[..i] == sorted[..i]
    {
      a[i] := sorted[i];
    }
    assert a[..] == sorted;
  }

  // ---------- searching ----------

  /** pkg/venafi/cloud/cloud.go, binarySearch: halving from the upper end. */
  method BinarySearch(values: seq<string>, toSearch: string) returns (r: int)
    ensures r == -1 || (0 <= r < |values| && values[r] == toSearch)
    ensures IsSorted(values) && toSearch in values ==> r >= 0
  {
    var length := |values| - 1;
    var minimum := 0;
    while minimum <= length
      invariant 0 <= minimum <= length + 1 <= |values|
      invariant IsSorted(values) ==> forall k | 0 <= k < |values| && values[k] == toSearch :: minimum <= k <= length
    {
      var mid := length - (length - minimum) / 2;
      if Less(values[mid], toSearch) {
        if IsSorted(values) {
          forall k | 0 <= k < |values| && values[k] == toSearch ensures mid < k {
            if k < mid {
              LeqAntisymmetric(values[k], values[mid]);
            }
          }
        }
        minimum := mid + 1;
      } else if Less(toSearch, values[mid]) {
        if IsSorted(values) {
          forall k | 0 <= k < |values| && values[k] == toSearch ensures k < mid {
            if mid < k {
              LeqAntisymmetric(values[k], values[mid]);
            }
          }
        }
        length := mid - 1;
      } else {
        LeqTotal(values[mid], toSearch);
        return mid;
      }
    }
    return -1;
  }

  /** pkg/venafi/cloud/cloud.go, contains: searches a sorted copy. */
  method Contains(values: seq<string>, toSearch: string) returns (r: bool)
    ensures r <==> toSearch in values
  {
    var copiedValues := new string[|values|](k requires 0 <= k < |values| => values[k]);
    assert copiedValues[..] == values;
    SortStrings(copiedValues);
    SortSorts(values);
    var position := BinarySearch(copiedValues[..], toSearch);
    assert toSearch in values <==> toSearch in multiset(values);
    assert toSearch in Sort(values) <==> toSearch in multiset(Sort(values));
    return position >= 0;
  }
}
