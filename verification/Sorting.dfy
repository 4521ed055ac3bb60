/** `sort.Strings`: byte strings in lexicographic order. */
module Sorting {
  import opened Octets

  predicate Less(a: Bytes, b: Bytes) {
    b != [] && (a == [] || a[0] < b[0] || (a[0] == b[0] && Less(a[1..], b[1..])))
  }

  lemma {:induction false} Trichotomy(a: Bytes, b: Bytes)
    ensures a == b || Less(a, b) || Less(b, a)
    ensures !(Less(a, b) && Less(b, a)) && !Less(a, a)
    decreases |a|
  {
    if a != [] {
      Trichotomy(a[1..], if b == [] then [] else b[1..]);
      if b != [] { assert a == [a[0]] + a[1..] && b == [b[0]] + b[1..]; }
    }
  }

  lemma {:induction false} Transitive(a: Bytes, b: Bytes, c: Bytes)
    requires Less(a, b) && Less(b, c)
    ensures Less(a, c)
    decreases |a|
  {
    if a != [] && a[0] == b[0] == c[0] { Transitive(a[1..], b[1..], c[1..]); }
  }

  /** Each string is less than the next, and so than all that follow. */
  predicate Ascending(xs: seq<Bytes>) {
    |xs| <= 1 || (Less(xs[0], xs[1]) && Ascending(xs[1..]))
  }

  lemma {:induction false} FirstIsLeast(xs: seq<Bytes>, x: Bytes)
    requires xs != [] && Ascending(xs) && x in xs[1..]
    ensures Less(xs[0], x)
  {
    if x != xs[1] {
      assert xs[1..] == [xs[1]] + xs[1..][1..];
      FirstIsLeast(xs[1..], x);
      Transitive(xs[0], xs[1], x);
    }
  }

  function InsertInto(xs: seq<Bytes>, x: Bytes): (r: seq<Bytes>)
    ensures forall y :: y in r <==> y in xs || y == x
  {
    if xs == [] || Less(x, xs[0]) then [x] + xs
    else
      assert xs == [xs[0]] + xs[1..];
      [xs[0]] + InsertInto(xs[1..], x)
  }

  lemma {:induction false} InsertAscending(xs: seq<Bytes>, x: Bytes)
    requires Ascending(xs) && x !in xs
    ensures Ascending(InsertInto(xs, x))
  {
    if xs != [] {
      var r := InsertInto(xs, x);
      if Less(x, xs[0]) {
        assert r[1..] == xs;
      } else {
        Trichotomy(x, xs[0]);
        InsertAscending(xs[1..], x);
        assert r[1..] == InsertInto(xs[1..], x);
      }
    }
  }

  function Sort(xs: seq<Bytes>): (r: seq<Bytes>)
    ensures forall y :: y in r <==> y in xs
  {
    if xs == [] then [] else
      assert xs == [xs[0]] + xs[1..];
      InsertInto(Sort(xs[1..]), xs[0])
  }

  lemma EmptyOrNot<T>(xs: seq<T>)
    ensures xs == [] || exists x :: x in xs
  {
    if xs != [] { assert xs[0] in xs; }
  }

  /** There is only one ascending list of a set. */
  lemma {:induction false} AscendingUnique(xs: seq<Bytes>, ys: seq<Bytes>)
    requires Ascending(xs) && Ascending(ys) && forall x :: x in xs <==> x in ys
    ensures xs == ys
  {
    if xs == [] {
      EmptyOrNot(ys);
    } else {
      assert xs[0] in xs && ys != [];
      assert xs == [xs[0]] + xs[1..] && ys == [ys[0]] + ys[1..];
      SameFirst(xs, ys);
      forall x ensures x in xs[1..] <==> x in ys[1..] {
        if x in xs[1..] {
          FirstIsLeast(xs, x);
          Trichotomy(xs[0], x);
          assert x in xs && x in [ys[0]] + ys[1..];
        }
        if x in ys[1..] {
          FirstIsLeast(ys, x);
          Trichotomy(xs[0], x);
          assert x in ys && x in [xs[0]] + xs[1..];
        }
      }
      AscendingUnique(xs[1..], ys[1..]);
    }
  }

  lemma SameFirst(xs: seq<Bytes>, ys: seq<Bytes>)
    requires xs != [] && ys != [] && Ascending(xs) && Ascending(ys) && forall x :: x in xs <==> x in ys
    ensures xs[0] == ys[0]
  {
    assert xs == [xs[0]] + xs[1..] && ys == [ys[0]] + ys[1..];
    assert xs[0] in xs && ys[0] in ys;
    if xs[0] != ys[0] {
      FirstIsLeast(xs, ys[0]);
      FirstIsLeast(ys, xs[0]);
      Trichotomy(xs[0], ys[0]);
    }
  }
}
