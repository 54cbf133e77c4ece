/** Python's `sorted` and `list.sort`: the result is in order, a permutation of the input, and stable, so
    that items which compare equal stay in their order. Strings are compared character by character,
    as Python does. */
module Sorting {

  function Insert<T>(x: T, s: seq<T>, leq: (T, T) -> bool): seq<T> {
    if s == [] || leq(x, s[0]) then [x] + s else [s[0]] + Insert(x, s[1..], leq)
  }

  function Sort<T>(s: seq<T>, leq: (T, T) -> bool): seq<T> {
    if s == [] then [] else Insert(s[0], Sort(s[1..], leq), leq)
  }

  function Filter<T>(s: seq<T>, p: T -> bool): seq<T> {
    if s == [] then [] else (if p(s[0]) then [s[0]] else []) + Filter(s[1..], p)
  }

  ghost predicate Sorted<T>(s: seq<T>, leq: (T, T) -> bool) {
    forall i, j :: 0 <= i < j < |s| ==> leq(s[i], s[j])
  }

  ghost predicate TotalOrder<T(!new)>(leq: (T, T) -> bool) {
    && (forall a, b :: leq(a, b) || leq(b, a))
    && (forall a, b, c :: leq(a, b) && leq(b, c) ==> leq(a, c))
  }

  lemma {:induction false} InsertMultiset<T>(x: T, s: seq<T>, leq: (T, T) -> bool)
    ensures multiset(Insert(x, s, leq)) == multiset{x} + multiset(s)
  {
    if s != [] && !leq(x, s[0]) {
      InsertMultiset(x, s[1..], leq);
      assert s == [s[0]] + s[1..];
    }
  }

  lemma {:induction false} SortMultiset<T>(s: seq<T>, leq: (T, T) -> bool)
    ensures multiset(Sort(s, leq)) == multiset(s)
  {
    if s != [] {
      SortMultiset(s[1..], leq);
      InsertMultiset(s[0], Sort(s[1..], leq), leq);
      assert s == [s[0]] + s[1..];
    }
  }

  /** Sorting neither adds nor loses an element, whatever the order. */
  lemma SortContents<T>(s: seq<T>, leq: (T, T) -> bool)
    ensures |Sort(s, leq)| == |s|
    ensures forall x :: x in Sort(s, leq) <==> x in s
  {
    SortMultiset(s, leq);
    assert |multiset(Sort(s, leq))| == |multiset(s)|;
    assert forall x :: x in Sort(s, leq) <==> x in multiset(Sort(s, leq));
  }

  lemma {:induction false} InsertSorted<T(!new)>(x: T, s: seq<T>, leq: (T, T) -> bool)
    requires TotalOrder(leq) && Sorted(s, leq)
    ensures Sorted(Insert(x, s, leq), leq)
  {
    if s != [] && !leq(x, s[0]) {
      InsertSorted(x, s[1..], leq);
      InsertMultiset(x, s[1..], leq);
      var rest := Insert(x, s[1..], leq);
      forall j | 0 <= j < |rest| ensures leq(s[0], rest[j]) {
        assert rest[j] in multiset(rest);
        assert rest[j] == x || rest[j] in s[1..];
      }
    }
  }

  lemma {:induction false} SortSorted<T(!new)>(s: seq<T>, leq: (T, T) -> bool)
    requires TotalOrder(leq)
    ensures Sorted(Sort(s, leq), leq)
  {
    if s != [] {
      SortSorted(s[1..], leq);
      InsertSorted(s[0], Sort(s[1..], leq), leq);
    }
  }

  lemma {:induction false} InsertStable<T(!new)>(x: T, s: seq<T>, leq: (T, T) -> bool, p: T -> bool)
    requires forall a, b :: p(a) && p(b) ==> leq(a, b)
    ensures Filter(Insert(x, s, leq), p) == (if p(x) then [x] else []) + Filter(s, p)
  {
    if s == [] || leq(x, s[0]) {
      FilterCons(x, s, p);
    } else {
      InsertStable(x, s[1..], leq, p);
      FilterCons(s[0], Insert(x, s[1..], leq), p);
      assert !p(x) || !p(s[0]);
      SwapEmpty(if p(s[0]) then [s[0]] else [], if p(x) then [x] else [], Filter(s[1..], p));
    }
  }

  lemma FilterCons<T>(x: T, s: seq<T>, p: T -> bool)
    ensures Filter([x] + s, p) == (if p(x) then [x] else []) + Filter(s, p)
  {
    assert ([x] + s)[1..] == s;
  }

  lemma SwapEmpty<T>(a: seq<T>, b: seq<T>, c: seq<T>)
    requires a == [] || b == []
    ensures a + (b + c) == b + (a + c)
  {
  }

  /** Elements that the order does not tell apart keep their original sequence. */
  lemma {:induction false} SortStable<T(!new)>(s: seq<T>, leq: (T, T) -> bool, p: T -> bool)
    requires forall a, b :: p(a) && p(b) ==> leq(a, b)
    ensures Filter(Sort(s, leq), p) == Filter(s, p)
  {
    if s != [] {
      SortStable(s[1..], leq, p);
      InsertStable(s[0], Sort(s[1..], leq), leq, p);
    }
  }

  lemma {:induction false} FilterContents<T>(s: seq<T>, p: T -> bool)
    ensures forall x :: x in Filter(s, p) <==> x in s && p(x)
    ensures |Filter(s, p)| <= |s|
  {
    if s != [] {
      FilterContents(s[1..], p);
      assert s == [s[0]] + s[1..];
    }
  }

  /** Python's order on strings. */
  predicate StringLeq(a: string, b: string) {
    a == "" || (b != "" && (a[0] < b[0] || (a[0] == b[0] && StringLeq(a[1..], b[1..]))))
  }

  lemma {:induction false} StringTotal(a: string, b: string)
    ensures StringLeq(a, b) || StringLeq(b, a)
  {
    if a != "" && b != "" && a[0] == b[0] {
      StringTotal(a[1..], b[1..]);
    }
  }

  lemma {:induction false} StringTransitive(a: string, b: string, c: string)
    requires StringLeq(a, b) && StringLeq(b, c)
    ensures StringLeq(a, c)
  {
    if a != "" && a[0] == b[0] == c[0] {
      StringTransitive(a[1..], b[1..], c[1..]);
    }
  }

  lemma StringOrder()
    ensures TotalOrder(StringLeq)
  {
    forall a, b ensures StringLeq(a, b) || StringLeq(b, a) { StringTotal(a, b); }
    forall a, b, c | StringLeq(a, b) && StringLeq(b, c) ensures StringLeq(a, c) { StringTransitive(a, b, c); }
  }
}
