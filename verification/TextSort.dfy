/** `Array.prototype.sort` on strings: code unit order.  Its result depends only on which strings occur how often. */
module TextSort {

  predicate NotAfter(a: string, b: string) {
    a == [] || (b != [] && (a[0] < b[0] || (a[0] == b[0] && NotAfter(a[1..], b[1..]))))
  }

  lemma {:induction false} Antisymmetric(a: string, b: string)
    requires NotAfter(a, b) && NotAfter(b, a)
    ensures a == b
  {
    if a != [] {
      Antisymmetric(a[1..], b[1..]);
      assert a == [a[0]] + a[1..] && b == [b[0]] + b[1..];
    }
  }

  lemma {:induction false} Total(a: string, b: string)
    ensures NotAfter(a, b) || NotAfter(b, a)
  {
    if a != [] && b != [] { Total(a[1..], b[1..]); }
  }

  lemma {:induction false} Transitive(a: string, b: string, c: string)
    requires NotAfter(a, b) && NotAfter(b, c)
    ensures NotAfter(a, c)
  {
    if a != [] && a[0] == b[0] && b[0] == c[0] { Transitive(a[1..], b[1..], c[1..]); }
  }

  predicate Ordered(s: seq<string>) {
    forall i, j :: 0 <= i < j < |s| ==> NotAfter(s[i], s[j])
  }

  function Insert(a: string, s: seq<string>): seq<string> {
    if s == [] || NotAfter(a, s[0]) then [a] + s else [s[0]] + Insert(a, s[1..])
  }

  function Sorted(s: seq<string>): seq<string> {
    if s == [] then [] else Insert(s[0], Sorted(s[1..]))
  }

  lemma {:induction false} InsertAdds(a: string, s: seq<string>)
    ensures multiset(Insert(a, s)) == multiset(s) + multiset{a}
  {
    if !(s == [] || NotAfter(a, s[0])) {
      InsertAdds(a, s[1..]);
      assert s == [s[0]] + s[1..];
    }
  }

  lemma {:induction false} InsertOrdered(a: string, s: seq<string>)
    requires Ordered(s)
    ensures Ordered(Insert(a, s))
  {
    var r := Insert(a, s);
    if s == [] {
    } else if NotAfter(a, s[0]) {
      forall j | 0 <= j < |s| ensures NotAfter(a, s[j]) {
        if j > 0 { Transitive(a, s[0], s[j]); }
      }
    } else {
      var rest := Insert(a, s[1..]);
      InsertOrdered(a, s[1..]);
      Total(a, s[0]);
      InsertAdds(a, s[1..]);
      forall j | 0 <= j < |rest| ensures NotAfter(s[0], rest[j]) {
        assert rest[j] in multiset(rest);
        if rest[j] != a { assert rest[j] in s[1..]; }
      }
    }
  }

  /** Sorting permutes and orders. */
  lemma {:induction false} SortedLaw(s: seq<string>)
    ensures multiset(Sorted(s)) == multiset(s) && Ordered(Sorted(s))
  {
    if s != [] {
      SortedLaw(s[1..]);
      InsertAdds(s[0], Sorted(s[1..]));
      InsertOrdered(s[0], Sorted(s[1..]));
      assert s == [s[0]] + s[1..];
    }
  }

  lemma LeastFirst(s: seq<string>, t: seq<string>)
    requires Ordered(s) && Ordered(t) && s != [] && t != [] && multiset(s) == multiset(t)
    ensures NotAfter(s[0], t[0])
  {
    assert t[0] in multiset(t);
    assert t[0] in s;
    var i :| 0 <= i < |s| && s[i] == t[0];
    if i == 0 { Total(s[0], s[0]); }
  }

  lemma RestOf(s: seq<string>)
    requires s != []
    ensures multiset(s[1..]) == multiset(s) - multiset{s[0]}
  {
    assert s == [s[0]] + s[1..];
  }

  /** An ordered list is determined by its members. */
  lemma {:induction false} OrderedUnique(s: seq<string>, t: seq<string>)
    requires Ordered(s) && Ordered(t) && multiset(s) == multiset(t)
    ensures s == t
  {
    assert |s| == |multiset(s)| == |multiset(t)| == |t|;
    if s != [] {
      assert s[0] == t[0] by {
        LeastFirst(s, t);
        LeastFirst(t, s);
        Antisymmetric(s[0], t[0]);
      }
      assert s == [s[0]] + s[1..] && t == [t[0]] + t[1..];
      RestOf(s);
      RestOf(t);
      assert s[1..] == t[1..] by { OrderedUnique(s[1..], t[1..]); }
    }
  }

  /** Two lists sort alike exactly when they hold the same strings equally often. */
  lemma SortedEqual(s: seq<string>, t: seq<string>)
    ensures Sorted(s) == Sorted(t) <==> multiset(s) == multiset(t)
  {
    SortedLaw(s);
    SortedLaw(t);
    if multiset(s) == multiset(t) { OrderedUnique(Sorted(s), Sorted(t)); }
  }
}
