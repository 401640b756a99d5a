/** Sorting as Python's `sorted` and `list.sort` do it, and why a sorted list is unique. */
module Orders {

  // ----- lists of (index, value) pairs, sorted by index -----

  datatype Indexed<T> = Indexed(index: nat, value: T)

  function InsertByIndex<T>(x: Indexed<T>, s: seq<Indexed<T>>): seq<Indexed<T>> {
    if s == [] || x.index < s[0].index then [x] + s else [s[0]] + InsertByIndex(x, s[1..])
  }

  function SortByIndex<T>(s: seq<Indexed<T>>): seq<Indexed<T>> {
    if s == [] then [] else InsertByIndex(s[0], SortByIndex(s[1..]))
  }

  ghost predicate DistinctIndices<T>(s: seq<Indexed<T>>) {
    forall i, j :: 0 <= i < j < |s| ==> s[i].index != s[j].index
  }

  ghost predicate ByIndex<T>(s: seq<Indexed<T>>) {
    forall i, j :: 0 <= i < j < |s| ==> s[i].index < s[j].index
  }

  lemma {:induction false} InsertKeepsOrder<T>(x: Indexed<T>, s: seq<Indexed<T>>)
    requires ByIndex(s) && forall y :: y in s ==> y.index != x.index
    ensures ByIndex(InsertByIndex(x, s))
    ensures forall y :: y in InsertByIndex(x, s) ==> y == x || y in s
    ensures forall y :: y == x || y in s ==> y in InsertByIndex(x, s)
  {
    if s == [] || x.index < s[0].index {
    } else {
      InsertKeepsOrder(x, s[1..]);
      assert s == [s[0]] + s[1..];
      var r := InsertByIndex(x, s[1..]);
      assert s[0] in s;
      forall y | y in r
        ensures s[0].index < y.index
      {
        if y != x {
          var i :| 0 <= i < |s[1..]| && s[1..][i] == y;
        }
      }
    }
  }

  /** Sorting pairs with distinct indices lists the same pairs in ascending index order. */
  lemma {:induction false} SortByIndexCorrect<T>(s: seq<Indexed<T>>)
    requires DistinctIndices(s)
    ensures ByIndex(SortByIndex(s))
    ensures forall y :: y in SortByIndex(s) ==> y in s
    ensures forall y :: y in s ==> y in SortByIndex(s)
  {
    if s == [] {
    } else {
      SortByIndexCorrect(s[1..]);
      forall y | y in SortByIndex(s[1..]) ensures y.index != s[0].index {
        var j :| 0 <= j < |s[1..]| && s[1..][j] == y;
        assert s[j + 1] == y;
      }
      InsertKeepsOrder(s[0], SortByIndex(s[1..]));
      assert s == [s[0]] + s[1..];
    }
  }

  /** Sorting a list that is in order already changes nothing. */
  lemma {:induction false} AlreadySorted<T>(s: seq<Indexed<T>>)
    requires ByIndex(s)
    ensures SortByIndex(s) == s
  {
    if s == [] {
    } else {
      AlreadySorted(s[1..]);
      assert s == [s[0]] + s[1..];
    }
  }

  // ----- strictly ascending lists of numbers -----

  ghost predicate Ascending(s: seq<nat>) {
    forall i, j :: 0 <= i < j < |s| ==> s[i] < s[j]
  }

  lemma SameLast(a: seq<nat>, b: seq<nat>)
    requires Ascending(a) && Ascending(b) && a != [] && b != []
    requires forall x :: x in a <==> x in b
    ensures a[|a| - 1] == b[|b| - 1]
  {
    var x, y := a[|a| - 1], b[|b| - 1];
    assert x in b && y in a;
    var i :| 0 <= i < |b| && b[i] == x;
    var j :| 0 <= j < |a| && a[j] == y;
  }

  lemma InitOf(a: seq<nat>, x: nat)
    requires Ascending(a) && a != []
    ensures Ascending(a[..|a| - 1])
    ensures x in a[..|a| - 1] <==> x in a && x != a[|a| - 1]
  {
    assert a == a[..|a| - 1] + [a[|a| - 1]];
  }

  /** A strictly ascending list is determined by its members. */
  lemma {:induction false} AscendingUnique(a: seq<nat>, b: seq<nat>)
    requires Ascending(a) && Ascending(b)
    requires forall x :: x in a <==> x in b
    ensures a == b
  {
    assert b != [] ==> b[0] in b;
    if a == [] {
    } else {
      assert a[0] in b;
      SameLast(a, b);
      var m, n := |a| - 1, |b| - 1;
      forall x ensures x in a[..m] <==> x in b[..n] {
        InitOf(a, x);
        InitOf(b, x);
      }
      InitOf(a, 0);
      InitOf(b, 0);
      hide Ascending;
      AscendingUnique(a[..m], b[..n]);
      assert a == a[..m] + [a[m]] && b == b[..n] + [b[n]];
    }
  }

  lemma RemoveAt<T>(s: seq<T>, j: nat)
    requires j < |s|
    ensures multiset(s[..j] + s[j + 1..]) == multiset(s) - multiset{s[j]}
  {
    assert s == s[..j] + [s[j]] + s[j + 1..];
  }

  // ----- strings, compared character by character -----

  predicate Before(a: string, b: string) {
    if a == [] then true
    else if b == [] then false
    else a[0] < b[0] || (a[0] == b[0] && Before(a[1..], b[1..]))
  }

  lemma {:induction false} BeforeTotal(a: string, b: string)
    ensures Before(a, b) || Before(b, a)
    ensures Before(a, b) && Before(b, a) ==> a == b
  {
    if a == [] || b == [] {
    } else {
      BeforeTotal(a[1..], b[1..]);
      if a[0] == b[0] && a[1..] == b[1..] {
        assert a == [a[0]] + a[1..] && b == [b[0]] + b[1..];
      }
    }
  }

  lemma {:induction false} BeforeTransitive(a: string, b: string, c: string)
    requires Before(a, b) && Before(b, c)
    ensures Before(a, c)
  {
    if a == [] || a[0] != b[0] || b[0] != c[0] {
    } else {
      BeforeTransitive(a[1..], b[1..], c[1..]);
    }
  }

  function InsertString(x: string, s: seq<string>): seq<string> {
    if s == [] || Before(x, s[0]) then [x] + s else [s[0]] + InsertString(x, s[1..])
  }

  function SortStrings(s: seq<string>): seq<string> {
    if s == [] then [] else InsertString(s[0], SortStrings(s[1..]))
  }

  ghost predicate Sorted(s: seq<string>) {
    forall i, j :: 0 <= i < j < |s| ==> Before(s[i], s[j])
  }

  lemma {:induction false} InsertStringMembers(x: string, s: seq<string>)
    ensures multiset(InsertString(x, s)) == multiset(s) + multiset{x}
  {
    if s == [] || Before(x, s[0]) {
    } else {
      InsertStringMembers(x, s[1..]);
      assert s == [s[0]] + s[1..];
    }
  }

  lemma {:induction false} InsertStringSorted(x: string, s: seq<string>)
    requires Sorted(s)
    ensures Sorted(InsertString(x, s))
  {
    if s == [] {
    } else {
      BeforeTotal(x, s[0]);
      if Before(x, s[0]) {
        forall j | 0 <= j < |s| ensures Before(x, s[j]) {
          if j > 0 { BeforeTransitive(x, s[0], s[j]); }
        }
      } else {
        InsertStringSorted(x, s[1..]);
        InsertStringMembers(x, s[1..]);
        var r := InsertString(x, s[1..]);
        hide InsertString, Before;
        forall y | y in r
          ensures Before(s[0], y)
        {
          assert y in multiset(r);
          assert y == x || y in s[1..];
        }
      }
    }
  }

  lemma {:induction false} SortStringsCorrect(s: seq<string>)
    ensures Sorted(SortStrings(s)) && multiset(SortStrings(s)) == multiset(s)
  {
    if s == [] {
    } else {
      SortStringsCorrect(s[1..]);
      InsertStringSorted(s[0], SortStrings(s[1..]));
      InsertStringMembers(s[0], SortStrings(s[1..]));
      assert s == [s[0]] + s[1..];
    }
  }

  lemma SortedHead(a: seq<string>, b: seq<string>)
    requires Sorted(a) && Sorted(b) && multiset(a) == multiset(b) && a != [] && b != []
    ensures a[0] == b[0]
  {
    assert a[0] in multiset(a) && b[0] in multiset(b);
    var i :| 0 <= i < |b| && b[i] == a[0];
    var j :| 0 <= j < |a| && a[j] == b[0];
    BeforeTotal(a[0], b[0]);
  }

  lemma TailOf(a: seq<string>)
    requires Sorted(a) && a != []
    ensures Sorted(a[1..]) && multiset(a[1..]) == multiset(a) - multiset{a[0]}
  {
    assert a == [a[0]] + a[1..];
  }

  /** A sorted list is determined by its members with their multiplicities. */
  lemma {:induction false} SortedUnique(a: seq<string>, b: seq<string>)
    requires Sorted(a) && Sorted(b) && multiset(a) == multiset(b)
    ensures a == b
  {
    assert |multiset(a)| == |a| && |multiset(b)| == |b|;
    if a == [] {
    } else {
      SortedHead(a, b);
      TailOf(a);
      TailOf(b);
      hide Sorted;
      SortedUnique(a[1..], b[1..]);
      assert a == [a[0]] + a[1..] && b == [b[0]] + b[1..];
    }
  }

  /** Sorting forgets the order it was given. */
  lemma SortForgetsOrder(a: seq<string>, b: seq<string>)
    requires multiset(a) == multiset(b)
    ensures SortStrings(a) == SortStrings(b)
  {
    SortStringsCorrect(a);
    SortStringsCorrect(b);
    SortedUnique(SortStrings(a), SortStrings(b));
  }
}
