/** What several modules share: an optional value, sequences without repetition, and the order of text. */
module Common {

  datatype Option<+T> = None | Some(value: T)

  function Min(a: int, b: int): (m: int)
    ensures m <= a && m <= b && (m == a || m == b)
  {
    if a <= b then a else b
  }

  predicate Distinct<T(==)>(s: seq<T>) { forall i, j :: 0 <= i < j < |s| ==> s[i] != s[j] }

  /** `a` comes before `b` character by character; a text comes before what extends it. */
  predicate Less(a: string, b: string) {
    b != [] && (a == [] || a[0] < b[0] || (a[0] == b[0] && Less(a[1..], b[1..])))
  }

  /** More than one member means two different ones. */
  lemma SeveralIff<T>(s: set<T>)
    ensures |s| > 1 <==> exists x, y :: x in s && y in s && x != y
  {
    if s != {} {
      var x :| x in s;
      var rest := s - {x};
      if rest != {} {
        var y :| y in rest;
        assert {x, y} <= s;
        assert s == (s - {x, y}) + {x, y} && |s| == |s - {x, y}| + |{x, y}|;
      } else {
        assert s == {x};
      }
    }
  }
}
