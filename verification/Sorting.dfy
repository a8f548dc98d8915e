/** Stable sorting by a comparator, its uniqueness, and the byte order of Rust strings. */
module Sorting {

  ghost predicate Preorder<T(!new)>(le: (T, T) -> bool) {
    && (forall a, b :: le(a, b) || le(b, a))
    && (forall a, b, c :: le(a, b) && le(b, c) ==> le(a, c))
  }

  ghost predicate Sorted<T>(le: (T, T) -> bool, s: seq<T>) {
    forall i, j :: 0 <= i < j < |s| ==> le(s[i], s[j])
  }

  /** No two different elements of the sequence are equivalent under the order. */
  ghost predicate Separates<T>(le: (T, T) -> bool, s: seq<T>) {
    forall i, j :: 0 <= i < |s| && 0 <= j < |s| && le(s[i], s[j]) && le(s[j], s[i]) ==> s[i] == s[j]
  }

  /** The sequence lists every element of the set exactly once, in any order. */
  ghost predicate Enumerates<T>(s: seq<T>, elements: set<T>) {
    multiset(s) == multiset(elements)
  }

  function Insert<T>(le: (T, T) -> bool, x: T, s: seq<T>): seq<T> {
    if s == [] || le(x, s[0]) then [x] + s else [s[0]] + Insert(le, x, s[1..])
  }

  /** `slice::sort_by`: elements that compare equal keep their relative order. */
  function SortBy<T>(le: (T, T) -> bool, s: seq<T>): seq<T> {
    if s == [] then [] else Insert(le, s[0], SortBy(le, s[1..]))
  }

  lemma {:induction false} InsertAdds<T>(le: (T, T) -> bool, x: T, s: seq<T>)
    ensures multiset(Insert(le, x, s)) == multiset(s) + multiset{x}
  {
    if s != [] && !le(x, s[0]) {
      assert s == [s[0]] + s[1..];
      InsertAdds(le, x, s[1..]);
    }
  }

  lemma {:induction false} InsertKeepsSorted<T(!new)>(le: (T, T) -> bool, x: T, s: seq<T>)
    requires Preorder(le) && Sorted(le, s)
    ensures Sorted(le, Insert(le, x, s))
  {
    if s != [] && !le(x, s[0]) {
      InsertKeepsSorted(le, x, s[1..]);
      InsertAdds(le, x, s[1..]);
      var rest := Insert(le, x, s[1..]);
      forall i | 0 <= i < |rest|
        ensures le(s[0], rest[i])
      {
        assert rest[i] in multiset(s[1..]) + multiset{x};
      }
    }
  }

  lemma {:induction false} SortBySorts<T(!new)>(le: (T, T) -> bool, s: seq<T>)
    requires Preorder(le)
    ensures multiset(SortBy(le, s)) == multiset(s)
    ensures Sorted(le, SortBy(le, s))
  {
    if s != [] {
      assert s == [s[0]] + s[1..];
      SortBySorts(le, s[1..]);
      InsertAdds(le, s[0], SortBy(le, s[1..]));
      InsertKeepsSorted(le, s[0], SortBy(le, s[1..]));
    }
  }

  lemma SortedHeadsAgree<T>(le: (T, T) -> bool, a: seq<T>, b: seq<T>)
    requires a != [] && b != [] && multiset(a) == multiset(b)
    requires Sorted(le, a) && Sorted(le, b) && Separates(le, a)
    ensures a[0] == b[0]
  {
    assert a[0] in multiset(b) && b[0] in multiset(a);
    var i :| 0 <= i < |b| && b[i] == a[0];
    var j :| 0 <= j < |a| && a[j] == b[0];
    if i > 0 && j > 0 {
      assert le(a[0], a[j]) && le(b[0], b[i]);
    }
  }

  lemma TailsOf<T>(le: (T, T) -> bool, a: seq<T>)
    requires a != []
    ensures multiset(a[1..]) == multiset(a) - multiset{a[0]}
    ensures Sorted(le, a) ==> Sorted(le, a[1..])
    ensures Separates(le, a) ==> Separates(le, a[1..])
  {
    assert a == [a[0]] + a[1..];
  }

  lemma SameHeadAndTail<T>(a: seq<T>, b: seq<T>)
    requires a != [] && b != [] && a[0] == b[0] && a[1..] == b[1..]
    ensures a == b
  {
    assert a == [a[0]] + a[1..] && b == [b[0]] + b[1..];
  }

  lemma {:induction false} SortedIsUnique<T>(le: (T, T) -> bool, a: seq<T>, b: seq<T>)
    requires multiset(a) == multiset(b)
    requires Sorted(le, a) && Sorted(le, b) && Separates(le, a)
    ensures a == b
  {
    assert |multiset(a)| == |a| && |multiset(b)| == |b|;
    if a != [] {
      SortedHeadsAgree(le, a, b);
      var p, q := a[1..], b[1..];
      assert multiset(p) == multiset(q) && Sorted(le, p) && Sorted(le, q) && Separates(le, p) by {
        TailsOf(le, a);
        TailsOf(le, b);
      }
      SortedIsUnique(le, p, q);
      SameHeadAndTail(a, b);
    }
  }

  /** Sorting any two enumerations of the same collection gives the same list. */
  lemma SortIgnoresInputOrder<T(!new)>(le: (T, T) -> bool, a: seq<T>, b: seq<T>)
    requires Preorder(le) && Separates(le, a)
    requires multiset(a) == multiset(b)
    ensures SortBy(le, a) == SortBy(le, b)
  {
    SortBySorts(le, a);
    SortBySorts(le, b);
    var sorted := SortBy(le, a);
    forall i, j | 0 <= i < |sorted| && 0 <= j < |sorted| && le(sorted[i], sorted[j]) && le(sorted[j], sorted[i])
      ensures sorted[i] == sorted[j]
    {
      assert sorted[i] in multiset(a) && sorted[j] in multiset(a);
      var p :| 0 <= p < |a| && a[p] == sorted[i];
      var q :| 0 <= q < |a| && a[q] == sorted[j];
    }
    SortedIsUnique(le, sorted, SortBy(le, b));
  }

  ghost function Listing<T(!new)>(elements: set<T>): (s: seq<T>)
    ensures Enumerates(s, elements)
  {
    if elements == {} then [] else
      var x :| x in elements;
      var rest := Listing(elements - {x});
      assert multiset(elements) == multiset(elements - {x}) + multiset{x};
      [x] + rest
  }

  lemma EnumerationsHaveNoRepeats<T>(s: seq<T>, elements: set<T>)
    requires Enumerates(s, elements)
    ensures forall i :: 0 <= i < |s| ==> s[i] in elements
    ensures forall x :: x in elements ==> x in s
    ensures forall i, j :: 0 <= i < j < |s| ==> s[i] != s[j]
    ensures |s| == |elements|
  {
    assert |multiset(s)| == |s| && |multiset(elements)| == |elements|;
    forall i | 0 <= i < |s| ensures s[i] in elements { assert s[i] in multiset(s); }
    forall x | x in elements ensures x in s { assert x in multiset(s); }
    forall i, j | 0 <= i < j < |s|
      ensures s[i] != s[j]
    {
      assert s == s[..i] + [s[i]] + s[i + 1..j] + [s[j]] + s[j + 1..];
      assert multiset(s)[s[i]] == multiset(elements)[s[i]] <= 1;
    }
  }

  // ---------- strings ----------

  /** Rust compares strings bytewise over UTF-8, which is the order of the code points. */
  predicate StringLe(a: string, b: string) {
    a == "" || (b != "" && (a[0] < b[0] || (a[0] == b[0] && StringLe(a[1..], b[1..]))))
  }

  lemma {:induction false} StringLeTotal(a: string, b: string)
    ensures StringLe(a, b) || StringLe(b, a)
    ensures StringLe(a, b) && StringLe(b, a) ==> a == b
  {
    if a != "" && b != "" && a[0] == b[0] {
      StringLeTotal(a[1..], b[1..]);
      assert a == [a[0]] + a[1..] && b == [b[0]] + b[1..];
    }
  }

  lemma {:induction false} StringLeTransitive(a: string, b: string, c: string)
    requires StringLe(a, b) && StringLe(b, c)
    ensures StringLe(a, c)
  {
    if a != "" && a[0] == b[0] == c[0] {
      StringLeTransitive(a[1..], b[1..], c[1..]);
    }
  }

  /** At the first place where they differ the smaller string has the smaller character, or has ended. */
  lemma {:induction false} StringLeDecides(a: string, b: string, n: nat)
    requires n <= |a| && n <= |b| && a[..n] == b[..n]
    ensures n == |a| ==> StringLe(a, b)
    ensures n < |a| && n < |b| && a[n] != b[n] ==> (StringLe(a, b) <==> a[n] < b[n])
    ensures n < |a| && n == |b| ==> !StringLe(a, b)
  {
    if n > 0 {
      assert a[0] == a[..n][0] == b[0];
      assert a[1..][..n - 1] == a[..n][1..] && b[1..][..n - 1] == b[..n][1..];
      StringLeDecides(a[1..], b[1..], n - 1);
    }
  }

  /** Sequences of strings compare by their first difference, as Rust compares tuples of equal length. */
  predicate ListLe(a: seq<string>, b: seq<string>) {
    a == [] || (b != [] && if a[0] != b[0] then StringLe(a[0], b[0]) else ListLe(a[1..], b[1..]))
  }
}
