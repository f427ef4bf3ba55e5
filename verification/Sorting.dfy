/** Sorting as a function of the contents, and in place. */
module Sorting {

  ghost predicate TotalOrder<T(!new)>(le: (T, T) -> bool) {
    && (forall a, b :: le(a, b) || le(b, a))
    && (forall a, b :: le(a, b) && le(b, a) ==> a == b)
    && (forall a, b, c :: le(a, b) && le(b, c) ==> le(a, c))
  }

  ghost predicate Sorted<T>(s: seq<T>, le: (T, T) -> bool) {
    forall i, j :: 0 <= i < j < |s| ==> le(s[i], s[j])
  }

  function Insert<T>(x: T, s: seq<T>, le: (T, T) -> bool): seq<T> {
    if s == [] then [x]
    else if le(s[|s| - 1], x) then s + [x]
    else Insert(x, s[..|s| - 1], le) + [s[|s| - 1]]
  }

  function Sort<T>(s: seq<T>, le: (T, T) -> bool): seq<T> {
    if s == [] then [] else Insert(s[|s| - 1], Sort(s[..|s| - 1], le), le)
  }

  lemma {:induction false} InsertKeeps<T(!new)>(x: T, s: seq<T>, le: (T, T) -> bool)
    requires TotalOrder(le) && Sorted(s, le)
    ensures multiset(Insert(x, s, le)) == multiset(s) + multiset{x}
    ensures Sorted(Insert(x, s, le), le)
  {
    if s != [] {
      var last, front := s[|s| - 1], s[..|s| - 1];
      assert s == front + [last];
      if !le(last, x) {
        InsertKeeps(x, front, le);
        var r := Insert(x, front, le);
        forall y | y in r ensures le(y, last) {
          assert y in multiset(r);
        }
      }
    }
  }

  /** Sorting permutes its input into order. */
  lemma {:induction false} SortIsSortedPermutation<T(!new)>(s: seq<T>, le: (T, T) -> bool)
    requires TotalOrder(le)
    ensures multiset(Sort(s, le)) == multiset(s) && Sorted(Sort(s, le), le)
  {
    if s != [] {
      SortIsSortedPermutation(s[..|s| - 1], le);
      InsertKeeps(s[|s| - 1], Sort(s[..|s| - 1], le), le);
      assert s == s[..|s| - 1] + [s[|s| - 1]];
    }
  }

  /** The last elements of two ordered permutations agree: each is the greatest of both. */
  lemma LastsAgree<T(!new)>(a: seq<T>, b: seq<T>, le: (T, T) -> bool)
    requires TotalOrder(le) && Sorted(a, le) && Sorted(b, le) && multiset(a) == multiset(b) && a != []
    ensures |a| == |b| && a[|a| - 1] == b[|b| - 1]
  {
    SameLength(a, b);
    var n := |a| - 1;
    var i := Occurs(a, b, n);
    var j := Occurs(b, a, n);
    Largest(b, le, i);
    Largest(a, le, j);
  }

  lemma SameLength<T>(a: seq<T>, b: seq<T>)
    requires multiset(a) == multiset(b)
    ensures |a| == |b|
  {
    assert |multiset(a)| == |multiset(b)|;
  }

  lemma Occurs<T>(a: seq<T>, b: seq<T>, n: nat) returns (i: nat)
    requires multiset(a) == multiset(b) && n < |a|
    ensures i < |b| && b[i] == a[n]
  {
    assert a[n] in multiset(b);
    i :| 0 <= i < |b| && b[i] == a[n];
  }

  lemma Largest<T(!new)>(s: seq<T>, le: (T, T) -> bool, i: nat)
    requires TotalOrder(le) && Sorted(s, le) && i < |s|
    ensures le(s[i], s[|s| - 1])
  {
  }

  lemma WithoutLast<T>(s: seq<T>)
    requires s != []
    ensures multiset(s[..|s| - 1]) == multiset(s) - multiset{s[|s| - 1]}
  {
    assert s == s[..|s| - 1] + [s[|s| - 1]];
  }

  lemma FrontsPermute<T>(a: seq<T>, b: seq<T>)
    requires multiset(a) == multiset(b) && a != [] && |a| == |b| && a[|a| - 1] == b[|b| - 1]
    ensures multiset(a[..|a| - 1]) == multiset(b[..|b| - 1])
  {
    WithoutLast(a);
    WithoutLast(b);
  }

  lemma FrontSorted<T>(s: seq<T>, le: (T, T) -> bool)
    requires Sorted(s, le) && s != []
    ensures Sorted(s[..|s| - 1], le)
  {
  }

  /** There is only one such permutation, so any sorting algorithm gives this result. */
  lemma {:induction false} SortedPermutationIsUnique<T(!new)>(a: seq<T>, b: seq<T>, le: (T, T) -> bool)
    requires TotalOrder(le) && Sorted(a, le) && Sorted(b, le) && multiset(a) == multiset(b)
    ensures a == b
  {
    hide *;
    SameLength(a, b);
    if a == [] { return; }
    LastsAgree(a, b, le);
    FrontsPermute(a, b);
    FrontSorted(a, le);
    FrontSorted(b, le);
    var n := |a| - 1;
    SortedPermutationIsUnique(a[..n], b[..n], le);
    assert a == a[..n] + [a[n]] && b == b[..n] + [b[n]];
  }

  lemma {:induction false} InsertAt<T(!new)>(x: T, s: seq<T>, at: nat, le: (T, T) -> bool)
    requires at <= |s|
    requires at > 0 ==> le(s[at - 1], x)
    requires forall i :: at <= i < |s| ==> !le(s[i], x)
    ensures Insert(x, s, le) == s[..at] + [x] + s[at..]
  {
    if at < |s| {
      var front := s[..|s| - 1];
      InsertAt(x, front, at, le);
      assert front[..at] == s[..at] && front[at..] + [s[|s| - 1]] == s[at..];
    } else {
      assert s[..at] == s && s[at..] == [];
    }
  }

  /** Element `i` moved down to place `j`. */
  function Moved<T>(s: seq<T>, i: nat, j: nat): (r: seq<T>)
    requires j <= i < |s|
    ensures |r| == |s| && r[j] == s[i] && (j > 0 ==> r[j - 1] == s[j - 1])
  {
    s[..j] + [s[i]] + s[j..i] + s[i + 1..]
  }

  lemma NotMoved<T>(s: seq<T>, i: nat)
    requires i < |s|
    ensures Moved(s, i, i) == s
  {
    assert s[i..i] == [];
    assert s == s[..i] + s[i..] && s[i..] == [s[i]] + s[i + 1..];
  }

  lemma MovedOnce<T>(s: seq<T>, i: nat, j: nat)
    requires 0 < j <= i < |s|
    ensures Moved(s, i, j)[j := s[j - 1]][j - 1 := s[i]] == Moved(s, i, j - 1)
  {
    var r, t := Moved(s, i, j)[j := s[j - 1]][j - 1 := s[i]], Moved(s, i, j - 1);
    assert s[j - 1..i] == [s[j - 1]] + s[j..i] && s[..j] == s[..j - 1] + [s[j - 1]];
    forall k | 0 <= k < |s| ensures r[k] == t[k] { }
  }

  lemma MovedIsInserted<T(!new)>(s: seq<T>, i: nat, j: nat, le: (T, T) -> bool)
    requires j <= i < |s| && (j > 0 ==> le(s[j - 1], s[i])) && forall k :: j <= k < i ==> !le(s[k], s[i])
    ensures Moved(s, i, j) == Insert(s[i], s[..i], le) + s[i + 1..]
  {
    InsertAt(s[i], s[..i], j, le);
    assert s[..i][..j] == s[..j] && s[..i][j..] == s[j..i];
  }

  /** Moves element `i` down to its place among the elements before it. */
  method InsertInPlace<T(!new)>(a: array<T>, i: nat, le: (T, T) -> bool)
    requires i < a.Length
    modifies a
    ensures a[..] == Insert(old(a[i]), old(a[..i]), le) + old(a[i + 1..])
  {
    ghost var was := a[..];
    hide Moved, Insert;
    NotMoved(was, i);
    var j := i;
    while j > 0 && !le(a[j - 1], a[j])
      invariant 0 <= j <= i
      invariant a[..] == Moved(was, i, j)
      invariant forall k :: j <= k < i ==> !le(was[k], was[i])
    {
      ghost var now := a[..];
      MovedOnce(was, i, j);
      a[j], a[j - 1] := a[j - 1], a[j];
      assert a[..] == now[j := now[j - 1]][j - 1 := now[j]];
      j := j - 1;
    }
    assert a[j] == a[..][j] && (j > 0 ==> a[j - 1] == a[..][j - 1]);
    MovedIsInserted(was, i, j, le);
    assert was[..i] == old(a[..i]) && was[i + 1..] == old(a[i + 1..]);
  }

  lemma {:induction false} InsertLength<T>(x: T, s: seq<T>, le: (T, T) -> bool)
    ensures |Insert(x, s, le)| == |s| + 1
  {
    if s != [] && !le(s[|s| - 1], x) { InsertLength(x, s[..|s| - 1], le); }
  }

  lemma {:induction false} SortLength<T>(s: seq<T>, le: (T, T) -> bool)
    ensures |Sort(s, le)| == |s|
  {
    if s != [] {
      SortLength(s[..|s| - 1], le);
      InsertLength(s[|s| - 1], Sort(s[..|s| - 1], le), le);
    }
  }

  lemma SortOneMore<T>(s: seq<T>, i: nat, le: (T, T) -> bool)
    requires i < |s|
    ensures Sort(s[..i + 1], le) == Insert(s[i], Sort(s[..i], le), le)
  {
    assert s[..i + 1][..i] == s[..i];
  }

  /** A front sorted, the rest as it was. */
  lemma FrontAndRest<T>(now: seq<T>, done: seq<T>, was: seq<T>, i: nat)
    requires i < |was| && |done| == i && now == done + was[i..]
    ensures |now| == |was| && now[..i] == done && now[i] == was[i] && now[i + 1..] == was[i + 1..]
  {
  }

  method SortInPlace<T(!new)>(a: array<T>, le: (T, T) -> bool)
    modifies a
    ensures a[..] == Sort(old(a[..]), le)
  {
    ghost var was := a[..];
    var i := 0;
    hide Sort, Insert;
    assert Sort(was[..0], le) + was[0..] == was by { SortLength(was[..0], le); }
    while i < a.Length
      invariant 0 <= i <= a.Length
      invariant a[..] == Sort(was[..i], le) + was[i..]
    {
      ghost var now, done := a[..], Sort(was[..i], le);
      SortLength(was[..i], le);
      FrontAndRest(now, done, was, i);
      assert a[i] == now[i] && a[..i] == now[..i] && a[i + 1..] == now[i + 1..];
      InsertInPlace(a, i, le);
      SortOneMore(was, i, le);
      i := i + 1;
    }
    assert was[..i] == was && was[i..] == [];
  }

  // ------------------------------------------------------------------ the two orders in use

  predicate IntLe(a: int, b: int) {
    a <= b
  }

  /** Go's order on strings: by the first byte that differs, a prefix first. */
  predicate StringLe(a: string, b: string) {
    a == [] || (b != [] && (a[0] < b[0] || (a[0] == b[0] && StringLe(a[1..], b[1..]))))
  }

  lemma {:induction false} StringLeTotal(a: string, b: string)
    ensures StringLe(a, b) || StringLe(b, a)
    ensures StringLe(a, b) && StringLe(b, a) ==> a == b
  {
    if a != [] && b != [] {
      StringLeTotal(a[1..], b[1..]);
      assert a == [a[0]] + a[1..] && b == [b[0]] + b[1..];
    }
  }

  lemma {:induction false} StringLeTransitive(a: string, b: string, c: string)
    requires StringLe(a, b) && StringLe(b, c)
    ensures StringLe(a, c)
  {
    if a != [] && a[0] == b[0] == c[0] {
      StringLeTransitive(a[1..], b[1..], c[1..]);
    }
  }

  lemma OrdersAreTotal()
    ensures TotalOrder(IntLe) && TotalOrder(StringLe)
  {
    forall a, b ensures StringLe(a, b) || StringLe(b, a) { StringLeTotal(a, b); }
    forall a, b | StringLe(a, b) && StringLe(b, a) ensures a == b { StringLeTotal(a, b); }
    forall a, b, c | StringLe(a, b) && StringLe(b, c) ensures StringLe(a, c) { StringLeTransitive(a, b, c); }
  }

  // ------------------------------------------------------------------ what these orders are

  ghost predicate Ascending(s: seq<int>) {
    forall i, j :: 0 <= i < j < |s| ==> s[i] <= s[j]
  }

  /** One text is a prefix of the other, or has the smaller byte where they first differ. */
  ghost predicate BytesLe(a: string, b: string) {
    a <= b || exists k :: 0 <= k < |a| && k < |b| && a[..k] == b[..k] && a[k] < b[k]
  }

  ghost predicate AscendingTexts(s: seq<string>) {
    forall i, j :: 0 <= i < j < |s| ==> BytesLe(s[i], s[j])
  }

  lemma BytesLeOfRests(a: string, b: string)
    requires a != [] && b != [] && a[0] == b[0] && BytesLe(a[1..], b[1..])
    ensures BytesLe(a, b)
  {
    var x, y := a[1..], b[1..];
    if x <= y {
      assert a == [a[0]] + x && b == [b[0]] + y;
      return;
    }
    var k :| 0 <= k < |x| && k < |y| && x[..k] == y[..k] && x[k] < y[k];
    assert a[..k + 1] == [a[0]] + x[..k] && b[..k + 1] == [b[0]] + y[..k];
    assert a[k + 1] < b[k + 1];
  }

  lemma RestsOfBytesLe(a: string, b: string)
    requires a != [] && b != [] && a[0] == b[0] && BytesLe(a, b)
    ensures BytesLe(a[1..], b[1..])
  {
    var x, y := a[1..], b[1..];
    if a <= b { return; }
    var k :| 0 <= k < |a| && k < |b| && a[..k] == b[..k] && a[k] < b[k];
    assert x[..k - 1] == y[..k - 1] by {
      assert x[..k - 1] == a[..k][1..];
      assert y[..k - 1] == b[..k][1..];
    }
    assert x[k - 1] == a[k] && y[k - 1] == b[k];
  }

  lemma SameStart(a: string, b: string, k: nat)
    requires 0 < k <= |a| && k <= |b| && a[..k] == b[..k]
    ensures a[0] == b[0]
  {
    assert a[..k][0] == b[..k][0];
  }

  lemma {:induction false} StringLeIsBytesLe(a: string, b: string)
    ensures StringLe(a, b) <==> BytesLe(a, b)
  {
    if a == [] || b == [] { return; }
    if a[0] != b[0] {
      assert a[..0] == b[..0];
      if BytesLe(a, b) {
        var k :| 0 <= k < |a| && k < |b| && a[..k] == b[..k] && a[k] < b[k];
        if k > 0 { SameStart(a, b, k); }
      }
      return;
    }
    StringLeIsBytesLe(a[1..], b[1..]);
    if BytesLe(a, b) { RestsOfBytesLe(a, b); }
    if BytesLe(a[1..], b[1..]) { BytesLeOfRests(a, b); }
  }

  /** Sorted numbers ascend, and are those that were given ... */
  lemma SortedAscend(s: seq<int>)
    ensures Ascending(Sort(s, IntLe)) && multiset(Sort(s, IntLe)) == multiset(s)
  {
    OrdersAreTotal();
    SortIsSortedPermutation(s, IntLe);
  }

  /** ... and so do sorted texts, byte by byte. */
  lemma SortedTextsAscend(s: seq<string>)
    ensures AscendingTexts(Sort(s, StringLe)) && multiset(Sort(s, StringLe)) == multiset(s)
  {
    OrdersAreTotal();
    SortIsSortedPermutation(s, StringLe);
    var r := Sort(s, StringLe);
    forall i, j | 0 <= i < j < |r| ensures BytesLe(r[i], r[j]) {
      StringLeIsBytesLe(r[i], r[j]);
    }
  }
}
