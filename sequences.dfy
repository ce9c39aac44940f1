/** Order-keeping selection and element-wise mapping over sequences: the `filter` and `map` of the
    JavaScript arrays and strings the pipeline works on. */
module Sequences {

  /** `s` is `t` with some elements left out, the rest in their order. */
  predicate SubsequenceOf<T(==)>(s: seq<T>, t: seq<T>)
    decreases |t|
  {
    s == [] || (t != [] && ((s[0] == t[0] && SubsequenceOf(s[1..], t[1..])) || SubsequenceOf(s, t[1..])))
  }

  /** `s.filter(f)`: the elements of `s` that satisfy `f`. `FilterCounts` and `FilterInOrder` add
      that each is kept as often as in `s` and in the order of `s`. */
  function Filter<T(==)>(s: seq<T>, f: T -> bool): (r: seq<T>)
    ensures |r| <= |s|
    ensures forall i :: 0 <= i < |r| ==> f(r[i])
    ensures forall x :: x in r ==> x in s && f(x)
    ensures forall x :: x in s && f(x) ==> x in r
  {
    if s == [] then []
    else if f(s[0]) then [s[0]] + Filter(s[1..], f)
    else Filter(s[1..], f)
  }

  /** The filter keeps every passing element as often as it occurs. */
  lemma {:induction false} FilterCounts<T(!new)>(s: seq<T>, f: T -> bool)
    ensures forall x :: f(x) ==> multiset(Filter(s, f))[x] == multiset(s)[x]
  {
    if s != [] {
      FilterCounts(s[1..], f);
      assert s == [s[0]] + s[1..];
    }
  }

  /** The filter keeps the order of its input. */
  lemma {:induction false} FilterInOrder<T>(s: seq<T>, f: T -> bool)
    ensures SubsequenceOf(Filter(s, f), s)
  {
    if s != [] {
      FilterInOrder(s[1..], f);
      var rest := Filter(s[1..], f);
      if f(s[0]) {
        assert ([s[0]] + rest)[1..] == rest;
      }
    }
  }

  /** `s.map(g)`. */
  function Map<T, U>(s: seq<T>, g: T -> U): (r: seq<U>)
    ensures |r| == |s|
    ensures forall i :: 0 <= i < |s| ==> r[i] == g(s[i])
  {
    if s == [] then [] else [g(s[0])] + Map(s[1..], g)
  }

  /** The elements of a mapped sequence are exactly the images of the elements of the input. */
  lemma MapMembers<T, U>(s: seq<T>, g: T -> U)
    ensures forall x :: x in s ==> g(x) in Map(s, g)
    ensures forall y :: y in Map(s, g) ==> exists x :: x in s && y == g(x)
  {
    var r := Map(s, g);
    forall x | x in s
      ensures g(x) in r
    {
      var i :| 0 <= i < |s| && s[i] == x;
      assert r[i] == g(x);
    }
    forall y | y in r
      ensures exists x :: x in s && y == g(x)
    {
      var i :| 0 <= i < |r| && r[i] == y;
      assert s[i] in s;
    }
  }

  /** Every element of a subsequence is an element of the whole. */
  lemma {:induction false} SubsequenceMembers<T>(s: seq<T>, t: seq<T>)
    requires SubsequenceOf(s, t)
    ensures forall x :: x in s ==> x in t
    decreases |t|
  {
    if s != [] {
      if s[0] == t[0] && SubsequenceOf(s[1..], t[1..]) {
        SubsequenceMembers(s[1..], t[1..]);
        assert s == [s[0]] + s[1..];
      } else {
        SubsequenceMembers(s, t[1..]);
      }
    }
  }

  /** A subsequence of a subsequence is a subsequence. */
  lemma {:induction false} SubsequenceTrans<T>(a: seq<T>, b: seq<T>, c: seq<T>)
    requires SubsequenceOf(a, b) && SubsequenceOf(b, c)
    ensures SubsequenceOf(a, c)
    decreases |c|
  {
    if a != [] {
      if b[0] == c[0] && SubsequenceOf(b[1..], c[1..]) {
        if a[0] == b[0] && SubsequenceOf(a[1..], b[1..]) {
          SubsequenceTrans(a[1..], b[1..], c[1..]);
        } else {
          SubsequenceTrans(a, b[1..], c[1..]);
        }
      } else {
        SubsequenceTrans(a, b, c[1..]);
      }
    }
  }

  /** Mapping keeps a subsequence a subsequence. */
  lemma {:induction false} SubsequenceMap<T, U>(s: seq<T>, t: seq<T>, g: T -> U)
    requires SubsequenceOf(s, t)
    ensures SubsequenceOf(Map(s, g), Map(t, g))
    decreases |t|
  {
    if s != [] {
      var ms, mt := Map(s, g), Map(t, g);
      assert ms[1..] == Map(s[1..], g);
      assert mt[1..] == Map(t[1..], g);
      if s[0] == t[0] && SubsequenceOf(s[1..], t[1..]) {
        SubsequenceMap(s[1..], t[1..], g);
      } else {
        SubsequenceMap(s, t[1..], g);
      }
    }
  }

  /** Filtering a sequence whose every element passes changes nothing. */
  lemma {:induction false} FilterAll<T>(s: seq<T>, f: T -> bool)
    requires forall i :: 0 <= i < |s| ==> f(s[i])
    ensures Filter(s, f) == s
  {
    if s != [] {
      FilterAll(s[1..], f);
    }
  }

  /** Filtering a sequence none of whose elements passes leaves nothing. */
  lemma {:induction false} FilterNone<T>(s: seq<T>, f: T -> bool)
    requires forall i :: 0 <= i < |s| ==> !f(s[i])
    ensures Filter(s, f) == []
  {
    if s != [] {
      FilterNone(s[1..], f);
    }
  }

  /** Filtering distributes over concatenation. */
  lemma {:induction false} FilterAppend<T>(a: seq<T>, b: seq<T>, f: T -> bool)
    ensures Filter(a + b, f) == Filter(a, f) + Filter(b, f)
  {
    if a == [] {
      assert a + b == b;
    } else {
      assert (a + b)[0] == a[0] && (a + b)[1..] == a[1..] + b;
      FilterAppend(a[1..], b, f);
    }
  }

  /** Filtering twice is filtering once by both conditions. */
  lemma {:induction false} FilterFilter<T>(s: seq<T>, f: T -> bool, g: T -> bool, h: T -> bool)
    requires forall x :: h(x) == (f(x) && g(x))
    ensures Filter(Filter(s, f), g) == Filter(s, h)
  {
    if s != [] {
      FilterFilter(s[1..], f, g, h);
      if f(s[0]) {
        assert ([s[0]] + Filter(s[1..], f))[1..] == Filter(s[1..], f);
      }
    }
  }
}
