/** `sort.Ints` and `sort.Strings` where no element occurs twice. */
module SortedInts {
  predicate StrictlyAscending(s: seq<int>) {
    forall i, j :: 0 <= i < j < |s| ==> s[i] < s[j]
  }

  function Insert(x: int, s: seq<int>): seq<int> {
    if s == [] || x < s[0] then [x] + s else [s[0]] + Insert(x, s[1..])
  }

  lemma {:induction false} InsertMeaning(x: int, s: seq<int>)
    requires StrictlyAscending(s) && x !in s
    ensures StrictlyAscending(Insert(x, s))
    ensures forall y :: y in Insert(x, s) <==> y == x || y in s
  {
    if s != [] && x > s[0] {
      InsertMeaning(x, s[1..]);
      var rest := Insert(x, s[1..]);
      assert s == [s[0]] + s[1..];
      forall i | 0 <= i < |rest|
        ensures s[0] < rest[i]
      {
        assert rest[i] in rest;
      }
    }
  }

  /** The elements of a set, taken in any order and sorted. */
  method SortedSet(elements: set<int>) returns (out: seq<int>)
    ensures StrictlyAscending(out) && forall x :: x in out <==> x in elements
  {
    out := [];
    var rest := elements;
    while rest != {}
      invariant rest <= elements && StrictlyAscending(out)
      invariant forall x :: x in out <==> x in elements && x !in rest
      decreases rest
    {
      assert (forall x :: x !in rest) ==> rest == {};
      var x :| x in rest;
      InsertMeaning(x, out);
      out := Insert(x, out);
      rest := rest - {x};
    }
  }

  lemma FirstIsIn(s: seq<int>)
    ensures s != [] ==> s[0] in s
  {
  }

  /** So sorting determines its result, whatever order the elements come in. */
  lemma {:induction false} SameElementsSameList(s: seq<int>, t: seq<int>)
    requires StrictlyAscending(s) && StrictlyAscending(t)
    requires forall x :: x in s <==> x in t
    ensures s == t
  {
    FirstIsIn(s);
    FirstIsIn(t);
    if s != [] {
      assert s == [s[0]] + s[1..] && t == [t[0]] + t[1..];
      assert s[0] == t[0];
      forall x
        ensures x in s[1..] <==> x in t[1..]
      {
        assert x in s[1..] <==> x in s && x != s[0];
        assert x in t[1..] <==> x in t && x != t[0];
      }
      SameElementsSameList(s[1..], t[1..]);
    }
  }
}
