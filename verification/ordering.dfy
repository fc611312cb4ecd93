/** Ordering used to fix the order of collection members. The handlers sort
    ids with std::sort and a comparator (AlphanumLess, or std::string's
    operator<). std::sort's algorithm is unspecified, so the model sorts by
    insertion; SortedUnique shows that under a strict total order every
    sorting algorithm yields this same sequence. */
module Ordering {
  import Strings

  ghost predicate Irreflexive<T(!new)>(less: (T, T) -> bool) {
    forall x :: !less(x, x)
  }

  ghost predicate Transitive<T(!new)>(less: (T, T) -> bool) {
    forall x, y, z :: less(x, y) && less(y, z) ==> less(x, z)
  }

  /** "not less" is transitive: incomparability is an equivalence. */
  ghost predicate NegativelyTransitive<T(!new)>(less: (T, T) -> bool) {
    forall x, y, z :: !less(x, y) && !less(y, z) ==> !less(x, z)
  }

  /** The requirement std::sort places on its comparator. */
  ghost predicate StrictWeakOrder<T(!new)>(less: (T, T) -> bool) {
    Irreflexive(less) && Transitive(less) && NegativelyTransitive(less)
  }

  ghost predicate Connected<T(!new)>(less: (T, T) -> bool) {
    forall x, y :: x != y ==> less(x, y) || less(y, x)
  }

  ghost predicate StrictTotalOrder<T(!new)>(less: (T, T) -> bool) {
    StrictWeakOrder(less) && Connected(less)
  }

  /** No element is less than one placed before it. */
  predicate SortedBy<T>(less: (T, T) -> bool, s: seq<T>) {
    forall i, j :: 0 <= i < j < |s| ==> !less(s[j], s[i])
  }

  /** Insert x before the first element it is not greater than. */
  function Insert<T(!new)>(less: (T, T) -> bool, x: T, s: seq<T>): (r: seq<T>)
    ensures multiset(r) == multiset(s) + multiset{x}
    ensures |r| == |s| + 1
    ensures StrictWeakOrder(less) && SortedBy(less, s) ==> SortedBy(less, r)
    decreases |s|
  {
    if |s| == 0 then [x]
    else if !less(s[0], x) then
      assert StrictWeakOrder(less) && SortedBy(less, s) ==> SortedBy(less, [x] + s) by {
        if StrictWeakOrder(less) && SortedBy(less, s) {
          forall i, j | 0 <= i < j < |[x] + s|
            ensures !less(([x] + s)[j], ([x] + s)[i])
          {
            if i == 0 && j > 1 {
              assert !less(s[j - 1], s[0]);
            }
          }
        }
      }
      [x] + s
    else
      var rest := Insert(less, x, s[1..]);
      assert s == [s[0]] + s[1..];
      assert StrictWeakOrder(less) && SortedBy(less, s) ==> SortedBy(less, [s[0]] + rest) by {
        if StrictWeakOrder(less) && SortedBy(less, s) {
          assert SortedBy(less, s[1..]);
          forall k | 0 <= k < |rest|
            ensures !less(rest[k], s[0])
          {
            assert rest[k] in multiset(rest);
            if rest[k] != x {
              assert rest[k] in multiset(s[1..]);
              var m :| 0 <= m < |s[1..]| && s[1..][m] == rest[k];
              assert !less(s[m + 1], s[0]);
            }
          }
          forall i, j | 0 <= i < j < |[s[0]] + rest|
            ensures !less(([s[0]] + rest)[j], ([s[0]] + rest)[i])
          {
            if i == 0 {
              assert ([s[0]] + rest)[j] == rest[j - 1];
            }
          }
        }
      }
      [s[0]] + rest
  }

  /** The sequence in comparator order: a permutation of s, sorted when the
      comparator is a strict weak order. */
  function Sort<T(!new)>(less: (T, T) -> bool, s: seq<T>): (r: seq<T>)
    ensures multiset(r) == multiset(s)
    ensures |r| == |s|
    ensures StrictWeakOrder(less) ==> SortedBy(less, r)
    decreases |s|
  {
    if |s| == 0 then []
    else
      assert s == [s[0]] + s[1..];
      Insert(less, s[0], Sort(less, s[1..]))
  }

  lemma HeadsEqual<T(!new)>(less: (T, T) -> bool, a: seq<T>, b: seq<T>)
    requires StrictTotalOrder(less)
    requires SortedBy(less, a) && SortedBy(less, b)
    requires multiset(a) == multiset(b)
    requires |a| > 0
    ensures |b| > 0 && a[0] == b[0]
  {
    assert a[0] in multiset(b);
    var j :| 0 <= j < |b| && b[j] == a[0];
    assert b[0] in multiset(a);
    var i :| 0 <= i < |a| && a[i] == b[0];
    // sorted: !less(b[j], b[0]) and !less(a[i], a[0]); connectedness then
    // rules out a[0] != b[0]
  }

  lemma TailsSameElements<T>(a: seq<T>, b: seq<T>)
    requires |a| > 0 && |b| > 0 && a[0] == b[0]
    requires multiset(a) == multiset(b)
    ensures multiset(a[1..]) == multiset(b[1..])
  {
    assert a == [a[0]] + a[1..] && b == [b[0]] + b[1..];
    assert multiset(a[1..]) == multiset(a) - multiset{a[0]};
    assert multiset(b[1..]) == multiset(b) - multiset{b[0]};
  }

  /** Under a strict total order there is exactly one sorted arrangement of a
      multiset: the order of members does not depend on the order in which
      the backend listed them. */
  lemma {:induction false} SortedUnique<T(!new)>(less: (T, T) -> bool, a: seq<T>, b: seq<T>)
    requires StrictTotalOrder(less)
    requires SortedBy(less, a) && SortedBy(less, b)
    requires multiset(a) == multiset(b)
    ensures a == b
    decreases |a|
  {
    if |a| == 0 {
      assert |b| == |multiset(b)| == 0;
    } else {
      HeadsEqual(less, a, b);
      TailsSameElements(a, b);
      SortedUnique(less, a[1..], b[1..]);
      assert a == [a[0]] + a[1..] && b == [b[0]] + b[1..];
    }
  }

  /** Sorting two listings that hold the same elements, in any order, gives
      the same sequence. */
  lemma SortDeterministic<T(!new)>(less: (T, T) -> bool, a: seq<T>, b: seq<T>)
    requires StrictTotalOrder(less)
    requires multiset(a) == multiset(b)
    ensures Sort(less, a) == Sort(less, b)
  {
    SortedUnique(less, Sort(less, a), Sort(less, b));
  }

  /** std::string's operator< as a comparator value. */
  function StringLess(): (string, string) -> bool {
    (a: string, b: string) => Strings.StrLess(a, b)
  }

  lemma StringLessIsStrictTotalOrder()
    ensures StrictTotalOrder(StringLess())
  {
    var less := StringLess();
    forall x: string
      ensures !less(x, x)
    {
      Strings.StrLessIrreflexive(x);
    }
    forall x: string, y: string, z: string | less(x, y) && less(y, z)
      ensures less(x, z)
    {
      Strings.StrLessTransitive(x, y, z);
    }
    forall x: string, y: string | x != y
      ensures less(x, y) || less(y, x)
    {
      Strings.StrLessConnected(x, y);
    }
    forall x: string, y: string, z: string | !less(x, y) && !less(y, z)
      ensures !less(x, z)
    {
      if x != y {
        Strings.StrLessConnected(x, y);
      }
      if y != z {
        Strings.StrLessConnected(y, z);
      }
      if less(x, z) {
        if x == y {
        } else if y == z {
        } else {
          Strings.StrLessTransitive(y, x, z);
        }
      }
    }
  }
}
