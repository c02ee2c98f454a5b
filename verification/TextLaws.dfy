/** What the string helpers mean, apart from how they are computed. */
module TextLaws {
  import opened Wrappers
  import opened Text
  import opened UciConfig

  // ---- words of a text ----

  predicate Solid(w: string) { w != [] && forall i | 0 <= i < |w| :: !IsSpace(w[i]) }

  lemma {:induction false} FieldsFromCut(a: string, c: char, b: string, word: string)
    requires IsSpace(c)
    ensures FieldsFrom(a + [c] + b, word) == FieldsFrom(a, word) + FieldsFrom(b, "")
    decreases |a|
  {
    var s := a + [c] + b;
    if a == [] {
      assert s[1..] == b;
    } else {
      assert s[1..] == a[1..] + [c] + b;
      FieldsFromCut(a[1..], c, b, if IsSpace(a[0]) then "" else word + [a[0]]);
    }
  }

  /** White space of any kind separates, and only separates. */
  lemma {:induction false} FieldsCut(a: string, c: char, b: string)
    requires IsSpace(c)
    ensures Fields(a + [c] + b) == Fields(a) + Fields(b)
  {
    FieldsFromCut(a, c, b, "");
  }

  lemma {:induction false} FieldsFromSolid(w: string, word: string)
    requires forall i | 0 <= i < |w| :: !IsSpace(w[i])
    ensures FieldsFrom(w, word) == if word + w == [] then [] else [word + w]
    decreases |w|
  {
    if w == [] {
      assert word + w == word;
    } else {
      FieldsFromSolid(w[1..], word + [w[0]]);
      assert word + [w[0]] + w[1..] == word + w;
    }
  }

  lemma {:induction false} FieldsOfSolid(w: string)
    requires Solid(w)
    ensures Fields(w) == [w] && Fields("") == []
  {
    FieldsFromSolid(w, "");
    assert "" + w == w;
  }

  /** Joined with blanks and split again. */
  lemma {:induction false} FieldsOfJoin(words: seq<string>)
    requires forall i | 0 <= i < |words| :: Solid(words[i])
    ensures Fields(Join(words, " ")) == words
  {
    if |words| == 1 {
      FieldsOfSolid(words[0]);
    } else if words != [] {
      FieldsOfJoin(words[1..]);
      FieldsCut(words[0], ' ', Join(words[1..], " "));
      FieldsOfSolid(words[0]);
      assert [' '] == " ";
      assert words == [words[0]] + words[1..];
    }
  }

  // ---- lower case ----

  predicate Lowered(c: char, l: char) {
    if 'A' <= c <= 'Z' then l as int == c as int + ('a' as int - 'A' as int) else l == c
  }

  /** Letter by letter; what has no capital stays. */
  lemma {:induction false} ToLowerExactly(s: string, t: string)
    ensures ToLower(s) == t <==> |s| == |t| && forall i | 0 <= i < |s| :: Lowered(s[i], t[i])
  {
    if |s| == |t| && forall i | 0 <= i < |s| :: Lowered(s[i], t[i]) {
      forall i | 0 <= i < |s| ensures ToLower(s)[i] == t[i] {
        assert Lowered(s[i], t[i]);
      }
    }
    if ToLower(s) == t {
      forall i | 0 <= i < |s| ensures Lowered(s[i], t[i]) {
        assert ToLower(s)[i] == t[i];
      }
    }
  }

  // ---- trimming ----

  predicate AllBlank(s: string) { forall i | 0 <= i < |s| :: IsSpace(s[i]) }

  predicate NoBlankEnds(s: string) { s == [] || (!IsSpace(s[0]) && !IsSpace(s[|s| - 1])) }

  lemma {:induction false} TrimLeftOf(a: string, s: string)
    requires AllBlank(a) && (s == [] || !IsSpace(s[0]))
    ensures TrimLeft(a + s, IsSpace) == s
  {
    if a == [] {
      assert a + s == s;
    } else {
      assert (a + s)[1..] == a[1..] + s;
      TrimLeftOf(a[1..], s);
    }
  }

  lemma {:induction false} TrimRightOf(s: string, b: string)
    requires AllBlank(b) && (s == [] || !IsSpace(s[|s| - 1]))
    ensures TrimRight(s + b, IsSpace) == s
  {
    if b == [] {
      assert s + b == s;
    } else {
      var t := s + b;
      assert t[..|t| - 1] == s + b[..|b| - 1];
      TrimRightOf(s, b[..|b| - 1]);
    }
  }

  /** Trimming takes white space from both ends and nothing else. */
  lemma {:induction false} TrimSpaceOf(a: string, s: string, b: string)
    requires AllBlank(a) && NoBlankEnds(s) && AllBlank(b)
    ensures TrimSpace(a + s + b) == s
  {
    if s == [] {
      assert a + s + b == (a + b) + [];
      TrimLeftOf(a + b, []);
    } else {
      assert a + s + b == a + (s + b);
      TrimLeftOf(a, s + b);
      TrimRightOf(s, b);
    }
  }

  // ---- order ----

  /** Byte strings are ordered by the first byte they differ in, and a prefix comes first. */
  lemma {:induction false} StringOrder(a: string, x: string, y: string)
    ensures StringLeq(a, a + y)
    ensures x != [] && y != [] && x[0] < y[0] ==> StringLeq(a + x, a + y) && !StringLeq(a + y, a + x)
    ensures y != [] ==> !StringLeq(a + y, a)
    decreases |a|
  {
    if a == [] {
      assert a + x == x && a + y == y;
    } else {
      StringOrder(a[1..], x, y);
      assert (a + x)[1..] == a[1..] + x && (a + y)[1..] == a[1..] + y;
    }
  }

  /** Numbers by size. */
  lemma {:induction false} IntOrder(a: int, b: int)
    ensures IntLeq(a, b) <==> a <= b
  {
  }

  /** A list option read as one string and split again is the list; a string option read as a
      list is its words. */
  lemma {:induction false} ValueForms(items: seq<string>, s: string)
    requires forall i | 0 <= i < |items| :: Solid(items[i])
    ensures Str(List(items).AsString()).AsList() == items
    ensures Str(s).AsString() == s && Str(s).AsList() == Fields(s) && List(items).AsList() == items
  {
    FieldsOfJoin(items);
  }
}
