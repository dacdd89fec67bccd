/** Lists without repetitions and the sets they hold. */
module Lists {
  predicate Distinct<T(==)>(s: seq<T>) {
    forall i, j :: 0 <= i < j < |s| ==> s[i] != s[j]
  }

  function Seen<T>(s: seq<T>): set<T> {
    set x | x in s
  }

  /** A list without repetitions has as many elements as its set. */
  lemma {:induction false} DistinctSize<T>(s: seq<T>)
    requires Distinct(s)
    ensures |Seen(s)| == |s|
  {
    if s != [] {
      var t, x := s[..|s| - 1], s[|s| - 1];
      assert s == t + [x];
      DistinctSize(t);
      assert x !in t;
      assert Seen(s) == Seen(t) + {x};
    }
  }

  lemma AppendAssoc<T>(a: seq<T>, b: seq<T>, c: seq<T>)
    ensures (a + b) + c == a + (b + c)
  {
  }

  lemma InAppend<T>(s: seq<T>, x: T, y: T)
    ensures y in s + [x] <==> y in s || y == x
  {
  }

  lemma SeenAppend<T>(s: seq<T>, x: T)
    ensures Seen(s + [x]) == Seen(s) + {x}
  {
    assert forall y :: y in s + [x] <==> y in s || y == x;
  }

  lemma DistinctAppend<T>(s: seq<T>, x: T)
    ensures Distinct(s + [x]) <==> Distinct(s) && x !in s
  {
    var t := s + [x];
    if x in s {
      var k :| 0 <= k < |s| && s[k] == x;
      assert t[k] == t[|s|];
    }
    if Distinct(t) {
      forall i, j | 0 <= i < j < |s| ensures s[i] != s[j] {
        assert t[i] == s[i] && t[j] == s[j];
      }
    }
  }

  /** A list that starts with `a + [x]` starts with `a`. */
  lemma PrefixStep<T>(a: seq<T>, x: T, b: seq<T>)
    requires |a| + 1 <= |b| && b[..|a| + 1] == a + [x]
    ensures b[..|a|] == a
  {
    assert b[..|a|] == b[..|a| + 1][..|a|];
  }
}
