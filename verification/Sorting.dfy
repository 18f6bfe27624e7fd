/** Sorting by a total order, as the standard library promises it, and the
    alphabetical order of names. */
module Sorting {

  ghost predicate IsTotalOrder<T(!new)>(le: (T, T) -> bool) {
    && (forall a, b :: le(a, b) || le(b, a))
    && (forall a, b, c :: le(a, b) && le(b, c) ==> le(a, c))
  }

  ghost predicate Ordered<T>(le: (T, T) -> bool, s: seq<T>) {
    forall i, j :: 0 <= i < j < |s| ==> le(s[i], s[j])
  }

  function Insert<T>(le: (T, T) -> bool, s: seq<T>, x: T): seq<T> {
    if s == [] || le(s[|s| - 1], x) then s + [x]
    else Insert(le, s[..|s| - 1], x) + [s[|s| - 1]]
  }

  function Sort<T>(le: (T, T) -> bool, s: seq<T>): seq<T> {
    if s == [] then [] else Insert(le, Sort(le, s[..|s| - 1]), s[|s| - 1])
  }

  lemma {:induction false} InsertKeepsMembers<T>(le: (T, T) -> bool, s: seq<T>, x: T)
    ensures multiset(Insert(le, s, x)) == multiset(s + [x])
  {
    if s != [] && !le(s[|s| - 1], x) {
      var front, last := s[..|s| - 1], s[|s| - 1];
      InsertKeepsMembers(le, front, x);
      assert s == front + [last];
    }
  }

  lemma {:induction false} InsertOrders<T(!new)>(le: (T, T) -> bool, s: seq<T>, x: T)
    requires IsTotalOrder(le) && Ordered(le, s)
    ensures Ordered(le, Insert(le, s, x))
  {
    if s != [] && !le(s[|s| - 1], x) {
      var front, last := s[..|s| - 1], s[|s| - 1];
      InsertOrders(le, front, x);
      InsertKeepsMembers(le, front, x);
      var inserted := Insert(le, front, x);
      forall i | 0 <= i < |inserted| ensures le(inserted[i], last) {
        assert inserted[i] in multiset(inserted);
        assert inserted[i] in front + [x];
      }
    } else {
      forall i | 0 <= i < |s| ensures le(s[i], x) {
        assert le(s[|s| - 1], x) && (i < |s| - 1 ==> le(s[i], s[|s| - 1]));
      }
    }
  }

  lemma {:induction false} SortSorts<T(!new)>(le: (T, T) -> bool, s: seq<T>)
    requires IsTotalOrder(le)
    ensures Ordered(le, Sort(le, s)) && multiset(Sort(le, s)) == multiset(s)
    ensures |Sort(le, s)| == |s| && forall x :: x in Sort(le, s) <==> x in s
  {
    if s != [] {
      var front, last := s[..|s| - 1], s[|s| - 1];
      SortSorts(le, front);
      InsertOrders(le, Sort(le, front), last);
      InsertKeepsMembers(le, Sort(le, front), last);
      assert s == front + [last];
    }
    assert |multiset(Sort(le, s))| == |Sort(le, s)| && |multiset(s)| == |s|;
    assert forall x :: x in Sort(le, s) <==> x in multiset(Sort(le, s));
    assert forall x :: x in s <==> x in multiset(s);
  }

  /** Character by character, a prefix first. */
  predicate Alphabetical(a: string, b: string) {
    a == "" || (b != "" && (a[0] < b[0] || (a[0] == b[0] && Alphabetical(a[1..], b[1..]))))
  }

  lemma {:induction false} AlphabeticalEither(a: string, b: string)
    ensures Alphabetical(a, b) || Alphabetical(b, a)
  {
    if a != "" && b != "" {
      AlphabeticalEither(a[1..], b[1..]);
    }
  }

  lemma {:induction false} AlphabeticalChains(a: string, b: string, c: string)
    requires Alphabetical(a, b) && Alphabetical(b, c)
    ensures Alphabetical(a, c)
  {
    if a != "" && a[0] == b[0] == c[0] {
      AlphabeticalChains(a[1..], b[1..], c[1..]);
    }
  }

  lemma AlphabeticalIsTotal()
    ensures IsTotalOrder(Alphabetical)
  {
    forall a, b ensures Alphabetical(a, b) || Alphabetical(b, a) {
      AlphabeticalEither(a, b);
    }
    forall a, b, c | Alphabetical(a, b) && Alphabetical(b, c) ensures Alphabetical(a, c) {
      AlphabeticalChains(a, b, c);
    }
  }
}
