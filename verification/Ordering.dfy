/**
 Strict orders and sorting.  The source sorts with its standard library; the result
 is described here by an insertion sort and shown to be the only sorted
 arrangement, so it does not depend on the algorithm or on the input order.
 */
module Ordering {

  // Text order

  /** Go's order on strings: bytewise on UTF-8, which is by code point. */
  predicate StringLess(a: string, b: string) {
    if b == "" then false
    else if a == "" then true
    else a[0] < b[0] || (a[0] == b[0] && StringLess(a[1..], b[1..]))
  }

  lemma {:induction false} StringIrreflexive(a: string)
    ensures !StringLess(a, a)
  {
    if a != "" {
      StringIrreflexive(a[1..]);
    }
  }

  lemma {:induction false} StringTransitive(a: string, b: string, c: string)
    requires StringLess(a, b) && StringLess(b, c)
    ensures StringLess(a, c)
  {
    if a != "" && a[0] == b[0] == c[0] {
      StringTransitive(a[1..], b[1..], c[1..]);
    }
  }

  lemma {:induction false} StringTotal(a: string, b: string)
    ensures a == b || StringLess(a, b) || StringLess(b, a)
  {
    if a != "" && b != "" {
      StringTotal(a[1..], b[1..]);
      assert a == [a[0]] + a[1..] && b == [b[0]] + b[1..];
    }
  }

  /** The texts first differ at some place: one ends there, or its character is the smaller. */
  predicate DiffersAt(a: string, b: string, k: nat) {
    && k <= |a| && k < |b| && a[..k] == b[..k]
    && (k == |a| || a[k] < b[k])
  }

  lemma {:induction false} StringLessIff(a: string, b: string)
    ensures StringLess(a, b) <==> exists k :: DiffersAt(a, b, k)
  {
    if b != "" && a == "" {
      assert DiffersAt(a, b, 0);
    } else if b != "" {
      StringLessIff(a[1..], b[1..]);
      if a[0] < b[0] {
        assert DiffersAt(a, b, 0);
      }
      if a[0] == b[0] {
        forall k: nat ensures DiffersAt(a[1..], b[1..], k) <==> DiffersAt(a, b, k + 1) {
          if k < |b[1..]| && k <= |a[1..]| {
            assert a[..k + 1] == [a[0]] + a[1..][..k] && b[..k + 1] == [b[0]] + b[1..][..k];
          }
        }
        if k :| DiffersAt(a, b, k) {
          assert k > 0 && DiffersAt(a[1..], b[1..], (k - 1) as nat);
        }
      }
    }
  }

  lemma StringOrder()
    ensures forall a :: !StringLess(a, a)
    ensures forall a, b, c :: StringLess(a, b) && StringLess(b, c) ==> StringLess(a, c)
    ensures forall a, b :: a == b || StringLess(a, b) || StringLess(b, a)
  {
    forall a ensures !StringLess(a, a) { StringIrreflexive(a); }
    forall a, b, c | StringLess(a, b) && StringLess(b, c) ensures StringLess(a, c) { StringTransitive(a, b, c); }
    forall a, b ensures a == b || StringLess(a, b) || StringLess(b, a) { StringTotal(a, b); }
  }

  // Sorting

  /** A strict order that tells any two different elements of the list apart. */
  ghost predicate StrictOn<T(!new)>(less: (T, T) -> bool, s: seq<T>) {
    && (forall x | x in s :: !less(x, x))
    && (forall x, y, z | x in s && y in s && z in s && less(x, y) && less(y, z) :: less(x, z))
    && (forall x, y | x in s && y in s && x != y :: less(x, y) || less(y, x))
  }

  predicate Sorted<T>(less: (T, T) -> bool, s: seq<T>) {
    forall i, j | 0 <= i < j < |s| :: !less(s[j], s[i])
  }

  function Insert<T>(less: (T, T) -> bool, x: T, s: seq<T>): (r: seq<T>)
    ensures multiset(r) == multiset(s) + multiset{x}
  {
    if s == [] then [x]
    else if less(s[0], x) then
      assert s == [s[0]] + s[1..];
      [s[0]] + Insert(less, x, s[1..])
    else [x] + s
  }

  function Sort<T>(less: (T, T) -> bool, s: seq<T>): (r: seq<T>)
    ensures multiset(r) == multiset(s)
  {
    if s == [] then []
    else
      assert s == [s[0]] + s[1..];
      Insert(less, s[0], Sort(less, s[1..]))
  }

  lemma SameElements<T>(a: seq<T>, b: seq<T>)
    requires multiset(a) == multiset(b)
    ensures |a| == |b| && forall x :: x in a <==> x in b
  {
    assert |multiset(a)| == |a| && |multiset(b)| == |b|;
    forall x ensures x in a <==> x in b {
      assert x in a <==> x in multiset(a);
      assert x in b <==> x in multiset(b);
    }
  }

  lemma StrictOnPart<T(!new)>(less: (T, T) -> bool, s: seq<T>, t: seq<T>)
    requires StrictOn(less, s) && forall x | x in t :: x in s
    ensures StrictOn(less, t)
  {
  }

  lemma {:induction false} InsertSorted<T(!new)>(less: (T, T) -> bool, x: T, s: seq<T>)
    requires StrictOn(less, [x] + s) && Sorted(less, s)
    ensures Sorted(less, Insert(less, x, s))
  {
    var all := [x] + s;
    assert forall y | y in s :: y in all;
    assert x in all;
    if s != [] {
      if less(s[0], x) {
        var rest := Insert(less, x, s[1..]);
        StrictOnPart(less, all, [x] + s[1..]);
        InsertSorted(less, x, s[1..]);
        MembersOfInsert(less, x, s[1..]);
        forall y | y in rest ensures !less(y, s[0]) {
          if y != x {
            var k :| 0 <= k < |s[1..]| && s[1..][k] == y;
            assert y == s[k + 1];
          }
        }
      } else {
        forall y | y in s ensures !less(y, x) {
          var k :| 0 <= k < |s| && s[k] == y;
          assert k > 0 ==> !less(s[k], s[0]);
          assert s[0] in all;
        }
      }
    }
  }

  lemma MembersOfInsert<T>(less: (T, T) -> bool, x: T, s: seq<T>)
    ensures forall y | y in Insert(less, x, s) :: y == x || y in s
  {
    forall y | y in Insert(less, x, s) ensures y == x || y in s {
      assert y in multiset(Insert(less, x, s));
    }
  }

  lemma {:induction false} SortSorts<T(!new)>(less: (T, T) -> bool, s: seq<T>)
    requires StrictOn(less, s)
    ensures Sorted(less, Sort(less, s)) && StrictOn(less, Sort(less, s))
    ensures |Sort(less, s)| == |s| && forall x :: x in Sort(less, s) <==> x in s
  {
    SameElements(Sort(less, s), s);
    StrictOnPart(less, s, Sort(less, s));
    if s != [] {
      StrictOnPart(less, s, s[1..]);
      SortSorts(less, s[1..]);
      StrictOnPart(less, s, [s[0]] + Sort(less, s[1..]));
      InsertSorted(less, s[0], Sort(less, s[1..]));
    }
  }

  lemma SameHead<T(!new)>(less: (T, T) -> bool, a: seq<T>, b: seq<T>)
    requires StrictOn(less, a) && Sorted(less, a) && Sorted(less, b) && multiset(a) == multiset(b) && a != []
    ensures |a| == |b| && a[0] == b[0]
  {
    SameElements(a, b);
    var x, y := a[0], b[0];
    assert x in b && y in a;
    var i :| 0 <= i < |a| && a[i] == y;
    var j :| 0 <= j < |b| && b[j] == x;
    assert i > 0 ==> !less(a[i], a[0]);
    assert j > 0 ==> !less(b[j], b[0]);
  }

  lemma SameTail<T>(a: seq<T>, b: seq<T>)
    requires a != [] && b != [] && a[0] == b[0] && multiset(a) == multiset(b)
    ensures multiset(a[1..]) == multiset(b[1..])
  {
    assert a == [a[0]] + a[1..] && b == [b[0]] + b[1..];
    assert multiset(a[1..]) == multiset(a) - multiset{a[0]};
    assert multiset(b[1..]) == multiset(b) - multiset{b[0]};
  }

  lemma SortedTail<T>(less: (T, T) -> bool, a: seq<T>)
    requires Sorted(less, a) && a != []
    ensures Sorted(less, a[1..])
  {
    forall i, j | 0 <= i < j < |a[1..]| ensures !less(a[1..][j], a[1..][i]) {
      assert a[1..][j] == a[j + 1] && a[1..][i] == a[i + 1];
    }
  }

  /** There is only one sorted arrangement of a collection under a strict order. */
  lemma {:induction false} SortedIsUnique<T(!new)>(less: (T, T) -> bool, a: seq<T>, b: seq<T>)
    requires StrictOn(less, a) && Sorted(less, a) && Sorted(less, b) && multiset(a) == multiset(b)
    ensures a == b
  {
    hide StrictOn, Sorted;
    if a == [] {
      assert |multiset(b)| == |b|;
    } else {
      SameHead(less, a, b);
      SameTail(a, b);
      SortedTail(less, a);
      SortedTail(less, b);
      StrictOnPart(less, a, a[1..]);
      SortedIsUnique(less, a[1..], b[1..]);
      assert a == [a[0]] + a[1..] && b == [b[0]] + b[1..];
    }
  }

  /** Whatever order the input is in, and whatever way it is sorted. */
  lemma SortIgnoresInputOrder<T(!new)>(less: (T, T) -> bool, a: seq<T>, b: seq<T>)
    requires StrictOn(less, a) && multiset(a) == multiset(b)
    ensures Sort(less, a) == Sort(less, b)
  {
    SameElements(a, b);
    StrictOnPart(less, a, b);
    SortSorts(less, a);
    SortSorts(less, b);
    SortedIsUnique(less, Sort(less, a), Sort(less, b));
  }
}
