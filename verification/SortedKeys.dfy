/** The keys of a Go map of booleans, in order. */
module SortedKeys {
  import opened Text

  /** The one list of a set's members that is in order and names each once. */
  ghost predicate Lists(keys: seq<string>, m: set<string>) {
    SortedBy(StringLeq, keys) && multiset(keys) == multiset(m)
  }

  lemma {:induction false} ListsOnce(a: seq<string>, b: seq<string>, m: set<string>)
    requires Lists(a, m) && Lists(b, m)
    ensures a == b
  {
    StringLeqTotal();
    SortedUnique(StringLeq, a, b);
  }

  /** What listing means, member by member. */
  lemma {:induction false} ListedMembers(keys: seq<string>, m: set<string>)
    requires Lists(keys, m)
    ensures forall x :: x in keys <==> x in m
    ensures forall i, j | 0 <= i < j < |keys| :: keys[i] != keys[j]
  {
    forall x ensures x in keys <==> x in m {
      assert x in multiset(keys) <==> x in multiset(m);
    }
    forall i, j | 0 <= i < j < |keys| ensures keys[i] != keys[j] {
      var a, b := keys[..j], keys[j..];
      assert keys == a + b && a[i] == keys[i] && b[0] == keys[j];
      assert a[i] in multiset(a) && b[0] in multiset(b);
      assert multiset(keys)[a[i]] == multiset(a)[a[i]] + multiset(b)[a[i]];
      assert multiset(m)[a[i]] <= 1;
    }
  }

  lemma {:induction false} SomeListing(m: set<string>) returns (keys: seq<string>)
    ensures Lists(keys, m)
  {
    var some := Members(m);
    StringLeqTotal();
    SortSorts(StringLeq, some);
    keys := SortStrings(some);
  }

  lemma {:induction false} Members(m: set<string>) returns (some: seq<string>)
    ensures multiset(some) == multiset(m)
  {
    if m == {} {
      some := [];
    } else {
      var x :| x in m;
      var rest := Members(m - {x});
      some := [x] + rest;
      assert multiset(m) == multiset{x} + multiset(m - {x});
    }
  }

  ghost function Keys(m: set<string>): (keys: seq<string>)
    ensures Lists(keys, m)
    ensures forall x :: x in keys <==> x in m
  {
    assert exists k :: Lists(k, m) by {
      var k := SomeListing(m);
    }
    var k :| Lists(k, m);
    ListedMembers(k, m);
    k
  }

  /** sortedKeys: collected in any order, then sorted. */
  method Collect(m: set<string>) returns (out: seq<string>)
    ensures out == Keys(m)
  {
    out := [];
    var left := m;
    while left != {}
      invariant left <= m && multiset(out) + multiset(left) == multiset(m)
    {
      var k :| k in left;
      assert multiset(left) == multiset{k} + multiset(left - {k});
      out := out + [k];
      left := left - {k};
    }
    StringLeqTotal();
    SortSorts(StringLeq, out);
    out := SortStrings(out);
    ListsOnce(out, Keys(m), m);
  }
}
