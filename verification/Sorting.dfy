/** Go's string order, and sorting by it. */
module Sorting {

  /** Lexicographic order. */
  predicate Less(a: string, b: string) {
    |b| > 0 && (|a| == 0 || a[0] < b[0] || (a[0] == b[0] && Less(a[1..], b[1..])))
  }

  /** The order is lexicographic: at the first place where the strings differ the smaller character
      decides, and a proper prefix comes first. */
  lemma {:induction false} LessIsLexicographic(a: string, b: string, i: nat)
    requires i <= |a| && i <= |b| && a[..i] == b[..i]
    ensures i < |a| && i < |b| && a[i] < b[i] ==> Less(a, b) && !Less(b, a)
    ensures i == |a| < |b| ==> Less(a, b) && !Less(b, a)
  {
    if i > 0 {
      assert a[0] == a[..i][0] && b[0] == b[..i][0];
      assert a[1..][..i - 1] == a[..i][1..] && b[1..][..i - 1] == b[..i][1..];
      LessIsLexicographic(a[1..], b[1..], i - 1);
    }
  }

  lemma {:induction false} LessIrreflexive(a: string)
    ensures !Less(a, a)
  {
    if a != "" {
      LessIrreflexive(a[1..]);
    }
  }

  lemma {:induction false} LessTransitive(a: string, b: string, c: string)
    requires Less(a, b) && Less(b, c)
    ensures Less(a, c)
  {
    if |a| > 0 && a[0] == b[0] == c[0] {
      LessTransitive(a[1..], b[1..], c[1..]);
    }
  }

  lemma {:induction false} LessTotal(a: string, b: string)
    ensures a == b || Less(a, b) || Less(b, a)
  {
    if |a| > 0 && |b| > 0 && a[0] == b[0] {
      LessTotal(a[1..], b[1..]);
      assert a == [a[0]] + a[1..] && b == [b[0]] + b[1..];
    }
  }

  ghost predicate StrictlySorted<T(!new)>(xs: seq<T>, key: T -> string) {
    forall i, j :: 0 <= i < j < |xs| ==> Less(key(xs[i]), key(xs[j]))
  }

  ghost predicate DistinctKeys<T(!new)>(xs: seq<T>, key: T -> string) {
    forall i, j :: 0 <= i < j < |xs| ==> key(xs[i]) != key(xs[j])
  }

  function Insert<T>(xs: seq<T>, x: T, key: T -> string): seq<T> {
    if xs == [] || Less(key(xs[|xs| - 1]), key(x)) then xs + [x]
    else Insert(xs[..|xs| - 1], x, key) + [xs[|xs| - 1]]
  }

  /** The library sort. Only distinct keys are ever sorted here, so by SortedDetermined any correct
      sort gives this result. */
  function Sort<T>(xs: seq<T>, key: T -> string): seq<T> {
    if xs == [] then [] else Insert(Sort(xs[..|xs| - 1], key), xs[|xs| - 1], key)
  }

  lemma {:induction false} InsertMembers<T(!new)>(xs: seq<T>, x: T, key: T -> string)
    ensures forall y :: y in Insert(xs, x, key) <==> y in xs || y == x
  {
    if xs != [] {
      InsertMembers(xs[..|xs| - 1], x, key);
      assert xs == xs[..|xs| - 1] + [xs[|xs| - 1]];
    }
  }

  lemma {:induction false} InsertSorts<T(!new)>(xs: seq<T>, x: T, key: T -> string)
    requires StrictlySorted(xs, key) && forall y :: y in xs ==> key(y) != key(x)
    ensures StrictlySorted(Insert(xs, x, key), key)
  {
    if xs != [] {
      var n := |xs| - 1;
      if Less(key(xs[n]), key(x)) {
        forall i | 0 <= i < n ensures Less(key(xs[i]), key(x)) {
          LessTransitive(key(xs[i]), key(xs[n]), key(x));
        }
      } else {
        InsertSorts(xs[..n], x, key);
        InsertMembers(xs[..n], x, key);
        LessTotal(key(xs[n]), key(x));
        assert xs[n] in xs;
        var front := Insert(xs[..n], x, key);
        forall i | 0 <= i < |front| ensures Less(key(front[i]), key(xs[n])) {
          assert front[i] in front;
        }
      }
    }
  }

  lemma {:induction false} SortSorts<T(!new)>(xs: seq<T>, key: T -> string)
    requires DistinctKeys(xs, key)
    ensures StrictlySorted(Sort(xs, key), key)
    ensures forall y :: y in Sort(xs, key) <==> y in xs
  {
    if xs != [] {
      var n := |xs| - 1;
      SortSorts(xs[..n], key);
      InsertMembers(Sort(xs[..n], key), xs[n], key);
      InsertSorts(Sort(xs[..n], key), xs[n], key);
      assert xs == xs[..n] + [xs[n]];
    }
  }

  /** A strictly sorted sequence is determined by its members. */
  lemma {:induction false} SortedDetermined<T(!new)>(a: seq<T>, b: seq<T>, key: T -> string)
    requires StrictlySorted(a, key) && StrictlySorted(b, key)
    requires forall x :: x in a <==> x in b
    ensures a == b
  {
    assert (b != [] ==> b[0] in b) && (a != [] ==> a[0] in a);
    if a != [] {
      var m, n := |a| - 1, |b| - 1;
      LastIsSame(a, b, key);
      forall x ensures x in a[..m] <==> x in b[..n] {
        DropLast(a, x, key);
        DropLast(b, x, key);
      }
      SortedDetermined(a[..m], b[..n], key);
      assert a == a[..m] + [a[m]] && b == b[..n] + [b[n]];
    }
  }

  lemma LastIsSame<T(!new)>(a: seq<T>, b: seq<T>, key: T -> string)
    requires a != [] && b != [] && StrictlySorted(a, key) && StrictlySorted(b, key)
    requires forall x :: x in a <==> x in b
    ensures a[|a| - 1] == b[|b| - 1]
  {
    var m, n := |a| - 1, |b| - 1;
    assert a[m] in b && b[n] in a;
    var i :| 0 <= i < |b| && b[i] == a[m];
    var j :| 0 <= j < |a| && a[j] == b[n];
    if i < n && j < m {
      LessTransitive(key(a[m]), key(b[n]), key(a[m]));
      LessIrreflexive(key(a[m]));
    }
  }

  lemma DropLast<T(!new)>(a: seq<T>, x: T, key: T -> string)
    requires a != [] && StrictlySorted(a, key)
    ensures x in a[..|a| - 1] <==> x in a && x != a[|a| - 1]
  {
    var m := |a| - 1;
    assert a == a[..m] + [a[m]];
    if x in a[..m] {
      var i :| 0 <= i < m && a[i] == x;
      assert Less(key(a[i]), key(a[m]));
      LessIrreflexive(key(a[m]));
    }
  }

  lemma SortedDistinct<T(!new)>(xs: seq<T>, key: T -> string)
    requires StrictlySorted(xs, key)
    ensures DistinctKeys(xs, key)
  {
    forall i, j | 0 <= i < j < |xs| ensures key(xs[i]) != key(xs[j]) {
      LessIrreflexive(key(xs[i]));
    }
  }
}
