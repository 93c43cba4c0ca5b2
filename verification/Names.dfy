/** `ORDER BY name`: a set of names as its one ascending list. */
module Names {
  import opened Calendar

  lemma {:induction false} BeforeIsStrict(a: string)
    ensures !Before(a, a)
  {
    if a != [] {
      BeforeIsStrict(a[1..]);
    }
  }

  lemma {:induction false} BeforeTransitive(a: string, b: string, c: string)
    requires Before(a, b) && Before(b, c)
    ensures Before(a, c)
  {
    if a != [] && a[0] == b[0] == c[0] {
      BeforeTransitive(a[1..], b[1..], c[1..]);
    }
  }

  lemma {:induction false} BeforeTotal(a: string, b: string)
    ensures Before(a, b) || a == b || Before(b, a)
  {
    if a != [] && b != [] && a[0] == b[0] {
      BeforeTotal(a[1..], b[1..]);
      assert a == [a[0]] + a[1..] && b == [b[0]] + b[1..];
    }
  }

  ghost predicate IsFirst(names: set<string>, m: string) {
    m in names && forall n :: n in names && n != m ==> Before(m, n)
  }

  lemma {:induction false} FirstExists(names: set<string>)
    requires names != {}
    ensures exists m :: IsFirst(names, m)
  {
    var x :| x in names;
    var others := names - {x};
    if others == {} {
      assert names == {x};
      assert IsFirst(names, x);
    } else {
      FirstExists(others);
      var m :| IsFirst(others, m);
      BeforeTotal(x, m);
      if Before(x, m) {
        forall n | n in names && n != x && n != m {
          BeforeTransitive(x, m, n);
        }
        assert IsFirst(names, x);
      } else {
        assert IsFirst(names, m);
      }
    }
  }

  lemma FirstIsUnique(names: set<string>, m: string, n: string)
    requires IsFirst(names, m) && IsFirst(names, n)
    ensures m == n
  {
    if m != n {
      BeforeTransitive(m, n, m);
      BeforeIsStrict(m);
    }
  }

  predicate Ascending(list: seq<string>) {
    forall i, j :: 0 <= i < j < |list| ==> Before(list[i], list[j])
  }

  ghost function Sorted(names: set<string>): seq<string> {
    if names == {} then []
    else
      FirstExists(names);
      var m :| IsFirst(names, m);
      [m] + Sorted(names - {m})
  }

  lemma SortedStartsWithFirst(names: set<string>, m: string)
    requires IsFirst(names, m)
    ensures Sorted(names) == [m] + Sorted(names - {m})
  {
    forall n | IsFirst(names, n)
      ensures n == m
    {
      FirstIsUnique(names, m, n);
    }
  }

  lemma {:induction false} SortedMeaning(names: set<string>)
    ensures forall n :: n in Sorted(names) <==> n in names
    ensures Ascending(Sorted(names))
    ensures |Sorted(names)| == |names|
  {
    if names != {} {
      FirstExists(names);
      var m :| IsFirst(names, m);
      SortedStartsWithFirst(names, m);
      var rest := Sorted(names - {m});
      SortedMeaning(names - {m});
      AscendingCons(m, rest);
      assert forall n :: n in [m] + rest <==> n == m || n in rest;
    }
  }

  lemma AscendingCons(m: string, rest: seq<string>)
    requires Ascending(rest) && forall n :: n in rest ==> Before(m, n)
    ensures Ascending([m] + rest)
  {
    assert forall i :: 0 <= i < |rest| ==> rest[i] in rest;
  }

  lemma AscendingSnoc(list: seq<string>, m: string)
    requires Ascending(list) && forall n :: n in list ==> Before(n, m)
    ensures Ascending(list + [m])
  {
    assert forall i :: 0 <= i < |list| ==> list[i] in list;
  }

  method OrderByName(names: set<string>) returns (list: seq<string>)
    ensures list == Sorted(names)
  {
    list := [];
    var todo := names;
    while todo != {}
      invariant Sorted(names) == list + Sorted(todo)
      decreases todo
    {
      var m := FirstOf(todo);
      SortedStartsWithFirst(todo, m);
      list := list + [m];
      todo := todo - {m};
    }
  }

  method FirstOf(names: set<string>) returns (m: string)
    requires names != {}
    ensures IsFirst(names, m)
  {
    m :| m in names;
    var todo := names - {m};
    while todo != {}
      invariant todo <= names && m in names && m !in todo
      invariant forall n :: n in names && n !in todo && n != m ==> Before(m, n)
      decreases todo
    {
      var n :| n in todo;
      todo := todo - {n};
      BeforeTotal(n, m);
      if Before(n, m) {
        forall x | x in names && x !in todo && x != n && x != m {
          BeforeTransitive(n, m, x);
        }
        m := n;
      }
    }
  }

  lemma {:induction false} AscendingListIsSorted(list: seq<string>, names: set<string>)
    requires Ascending(list) && forall n :: n in list <==> n in names
    ensures list == Sorted(names)
  {
    if list != [] {
      assert list[0] in names;
      assert IsFirst(names, list[0]);
      SortedStartsWithFirst(names, list[0]);
      BeforeIsStrict(list[0]);
      forall n
        ensures n in list[1..] <==> n in names - {list[0]}
      {
        assert n in list <==> n == list[0] || n in list[1..];
      }
      AscendingListIsSorted(list[1..], names - {list[0]});
    } else {
      assert names == {};
    }
  }
}
