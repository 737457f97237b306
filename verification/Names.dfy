/** Tool names in the order the sync report lists them. */
module Names {

  /** Code-point lexicographic order, the order in which the source sorts its strings. */
  predicate LessEq(a: string, b: string) {
    a == [] || (b != [] && (a[0] < b[0] || (a[0] == b[0] && LessEq(a[1..], b[1..]))))
  }

  /** One name comes before another as its prefix, or by the first character in which they differ. */
  lemma {:induction false} LessEqMeaning(a: string, b: string)
    ensures LessEq(a, b) <==>
      a <= b || exists k :: 0 <= k < |a| && k < |b| && a[..k] == b[..k] && a[k] < b[k]
  {
    if a != [] && b != [] && a[0] == b[0] {
      var x, y := a[1..], b[1..];
      LessEqMeaning(x, y);
      assert a == [a[0]] + x && b == [b[0]] + y;
      if k :| 0 <= k < |x| && k < |y| && x[..k] == y[..k] && x[k] < y[k] {
        assert a[..k + 1] == [a[0]] + x[..k] && b[..k + 1] == [b[0]] + y[..k] && a[k + 1] < b[k + 1];
      }
      if k :| 0 <= k < |a| && k < |b| && a[..k] == b[..k] && a[k] < b[k] {
        assert x[..k - 1] == a[..k][1..] && y[..k - 1] == b[..k][1..] && x[k - 1] < y[k - 1];
      }
    } else if a != [] && b != [] {
      assert a[..0] == b[..0];
      if k :| 0 <= k < |a| && k < |b| && a[..k] == b[..k] && a[k] < b[k] {
        assert k == 0 || a[..k][0] == b[..k][0];
      }
    }
  }

  lemma {:induction false} Total(a: string, b: string)
    ensures LessEq(a, b) || LessEq(b, a)
  {
    if a != [] && b != [] && a[0] == b[0] {
      Total(a[1..], b[1..]);
    }
  }

  lemma {:induction false} Transitive(a: string, b: string, c: string)
    requires LessEq(a, b) && LessEq(b, c)
    ensures LessEq(a, c)
  {
    if a != [] && a[0] == b[0] == c[0] {
      Transitive(a[1..], b[1..], c[1..]);
    }
  }

  lemma {:induction false} Antisymmetric(a: string, b: string)
    requires LessEq(a, b) && LessEq(b, a)
    ensures a == b
  {
    if a != [] {
      Antisymmetric(a[1..], b[1..]);
      assert a == [a[0]] + a[1..] && b == [b[0]] + b[1..];
    }
  }

  ghost predicate Ascending(names: seq<string>) {
    forall i, j :: 0 <= i < j < |names| ==> LessEq(names[i], names[j])
  }

  function Insert(name: string, names: seq<string>): seq<string> {
    if names == [] || LessEq(name, names[0]) then [name] + names else [names[0]] + Insert(name, names[1..])
  }

  function Sort(names: seq<string>): seq<string> {
    if names == [] then [] else Insert(names[0], Sort(names[1..]))
  }

  lemma {:induction false} InsertKeeps(name: string, names: seq<string>)
    ensures multiset(Insert(name, names)) == multiset(names) + multiset{name}
    ensures Ascending(names) ==> Ascending(Insert(name, names))
  {
    if names == [] || LessEq(name, names[0]) {
      if names != [] && Ascending(names) {
        forall j | 0 <= j < |names|
          ensures LessEq(name, names[j])
        {
          if j > 0 {
            Transitive(name, names[0], names[j]);
          }
        }
      }
    } else {
      var rest := Insert(name, names[1..]);
      InsertKeeps(name, names[1..]);
      assert names == [names[0]] + names[1..];
      if Ascending(names) {
        Total(name, names[0]);
        forall j | 0 <= j < |rest|
          ensures LessEq(names[0], rest[j])
        {
          assert rest[j] in multiset(rest);
          assert rest[j] == name || rest[j] in names[1..];
        }
      }
    }
  }

  /** Sorting keeps every name with its multiplicity and puts them in ascending order. */
  lemma {:induction false} SortSorts(names: seq<string>)
    ensures multiset(Sort(names)) == multiset(names) && Ascending(Sort(names))
  {
    if names != [] {
      SortSorts(names[1..]);
      InsertKeeps(names[0], Sort(names[1..]));
      assert names == [names[0]] + names[1..];
    }
  }

  lemma SameHead(a: seq<string>, b: seq<string>)
    requires a != [] && b != [] && Ascending(a) && Ascending(b) && multiset(a) == multiset(b)
    ensures a[0] == b[0]
  {
    assert a[0] in multiset(b) && b[0] in multiset(a);
    var i :| 0 <= i < |a| && a[i] == b[0];
    var j :| 0 <= j < |b| && b[j] == a[0];
    if i > 0 && j > 0 {
      Antisymmetric(a[0], b[0]);
    }
  }

  /** The sorted list depends only on which names there are, not on the order they came in. */
  lemma {:induction false} SortedListIsUnique(a: seq<string>, b: seq<string>)
    requires Ascending(a) && Ascending(b) && multiset(a) == multiset(b)
    ensures a == b
  {
    assert |a| == |multiset(a)| == |multiset(b)| == |b|;
    if a != [] {
      SameHead(a, b);
      assert a == [a[0]] + a[1..] && b == [b[0]] + b[1..];
      assert multiset(a[1..]) == multiset(a) - multiset{a[0]};
      assert multiset(b[1..]) == multiset(b) - multiset{b[0]};
      SortedListIsUnique(a[1..], b[1..]);
    }
  }
}
