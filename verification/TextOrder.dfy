/** Sorting text: any strict total order, and the order of characters. */
module TextOrder {
  import opened Common

  type Before = (string, string) -> bool

  ghost predicate StrictOrder(lt: Before) {
    && (forall a :: !lt(a, a))
    && (forall a, b, c :: lt(a, b) && lt(b, c) ==> lt(a, c))
    && (forall a, b :: a == b || lt(a, b) || lt(b, a))
  }

  predicate Ascending(lt: Before, xs: seq<string>) { forall i, j :: 0 <= i < j < |xs| ==> lt(xs[i], xs[j]) }

  function Insert(lt: Before, x: string, xs: seq<string>): seq<string> {
    if xs == [] || lt(xs[|xs| - 1], x) then xs + [x]
    else Insert(lt, x, xs[..|xs| - 1]) + [xs[|xs| - 1]]
  }

  function Sorted(lt: Before, xs: seq<string>): seq<string> {
    if xs == [] then [] else Insert(lt, xs[|xs| - 1], Sorted(lt, xs[..|xs| - 1]))
  }

  lemma {:induction false} InsertAscends(lt: Before, x: string, xs: seq<string>)
    requires StrictOrder(lt) && Ascending(lt, xs) && x !in xs
    ensures Ascending(lt, Insert(lt, x, xs)) && |Insert(lt, x, xs)| == |xs| + 1
    ensures forall y :: y in Insert(lt, x, xs) <==> y == x || y in xs
  {
    if xs == [] || lt(xs[|xs| - 1], x) {
      forall y | y in xs ensures lt(y, x) {
        var i :| 0 <= i < |xs| && xs[i] == y;
      }
      AscendingAppend(lt, xs, x);
    } else {
      var front, last := xs[..|xs| - 1], xs[|xs| - 1];
      assert xs == front + [last];
      InsertAscends(lt, x, front);
      AscendingAppend(lt, Insert(lt, x, front), last);
    }
  }

  lemma AscendingAppend(lt: Before, xs: seq<string>, last: string)
    requires Ascending(lt, xs) && forall x :: x in xs ==> lt(x, last)
    ensures Ascending(lt, xs + [last])
  {
    forall i | 0 <= i < |xs| ensures lt(xs[i], last) {
      assert xs[i] in xs;
    }
  }

  lemma {:induction false} SortedAscends(lt: Before, xs: seq<string>)
    requires StrictOrder(lt) && Distinct(xs)
    ensures Ascending(lt, Sorted(lt, xs)) && |Sorted(lt, xs)| == |xs|
    ensures forall x :: x in Sorted(lt, xs) <==> x in xs
  {
    if xs != [] {
      var front := xs[..|xs| - 1];
      SortedAscends(lt, front);
      assert xs == front + [xs[|xs| - 1]];
      InsertAscends(lt, xs[|xs| - 1], Sorted(lt, front));
    }
  }

  lemma AscendingDistinct(lt: Before, xs: seq<string>)
    requires StrictOrder(lt) && Ascending(lt, xs)
    ensures Distinct(xs)
  {
    forall i, j | 0 <= i < j < |xs| ensures xs[i] != xs[j] {
      assert lt(xs[i], xs[j]) && !lt(xs[i], xs[i]);
    }
  }

  /** The members of a set, in order. */
  method SortedSet(all: set<string>, lt: Before) returns (xs: seq<string>)
    requires StrictOrder(lt)
    ensures Ascending(lt, xs) && forall x :: x in xs <==> x in all
  {
    xs := [];
    var rest := all;
    while rest != {}
      invariant rest <= all && Ascending(lt, xs) && forall x :: x in xs <==> x in all - rest
      decreases rest
    {
      var x :| x in rest;
      InsertAscends(lt, x, xs);
      xs, rest := Insert(lt, x, xs), rest - {x};
    }
  }

  lemma {:induction false} LessTransitive(a: string, b: string, c: string)
    requires Less(a, b) && Less(b, c)
    ensures Less(a, c)
  {
    if a != [] && a[0] == b[0] == c[0] {
      LessTransitive(a[1..], b[1..], c[1..]);
    }
  }

  lemma {:induction false} LessIrreflexive(a: string)
    ensures !Less(a, a)
  {
    if a != [] {
      LessIrreflexive(a[1..]);
    }
  }

  lemma {:induction false} LessTotal(a: string, b: string)
    ensures a == b || Less(a, b) || Less(b, a)
  {
    if a != [] && b != [] && a[0] == b[0] {
      LessTotal(a[1..], b[1..]);
      assert a == [a[0]] + a[1..] && b == [b[0]] + b[1..];
    }
  }

  lemma LessIsStrictOrder()
    ensures StrictOrder(Less)
  {
    forall a ensures !Less(a, a) {
      LessIrreflexive(a);
    }
    forall a, b, c | Less(a, b) && Less(b, c) ensures Less(a, c) {
      LessTransitive(a, b, c);
    }
    forall a, b ensures a == b || Less(a, b) || Less(b, a) {
      LessTotal(a, b);
    }
  }

  // ---------------------------------------------------------------- what the order of text is

  /** The texts agree up to `i`; there the first one ends or has the smaller character. */
  predicate PrecedesAt(a: string, b: string, i: nat) {
    i <= |a| && i < |b| && a[..i] == b[..i] && (i == |a| || a[i] < b[i])
  }

  lemma {:induction false} LessIffPrecedes(a: string, b: string)
    ensures Less(a, b) <==> exists i :: PrecedesAt(a, b, i)
  {
    if a != [] && b != [] && a[0] == b[0] {
      LessIffPrecedes(a[1..], b[1..]);
      forall i: nat ensures PrecedesAt(a[1..], b[1..], i) <==> PrecedesAt(a, b, i + 1) {
        PrecedesTail(a, b, i);
      }
      if i: nat :| PrecedesAt(a, b, i) {
        assert PrecedesAt(a[1..], b[1..], i - 1);
      }
      if i: nat :| PrecedesAt(a[1..], b[1..], i) {
        assert PrecedesAt(a, b, i + 1);
      }
    } else if Less(a, b) {
      assert PrecedesAt(a, b, 0);
    } else {
      forall i: nat ensures !PrecedesAt(a, b, i) {
        if 0 < i <= |a| && i < |b| {
          assert a[..i][0] == a[0] && b[..i][0] == b[0];
        }
      }
    }
  }

  lemma PrecedesTail(a: string, b: string, i: nat)
    requires a != [] && b != [] && a[0] == b[0]
    ensures PrecedesAt(a[1..], b[1..], i) <==> PrecedesAt(a, b, i + 1)
  {
    if i < |a| && i + 1 < |b| {
      assert a[..i + 1] == [a[0]] + a[1..][..i] && b[..i + 1] == [b[0]] + b[1..][..i];
      assert PrecedesAt(a, b, i + 1) ==> a[..i + 1][1..] == a[1..][..i] && b[..i + 1][1..] == b[1..][..i];
    }
  }
}
